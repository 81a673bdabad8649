/** What each kind of poll does to the state, and when it fails. */
module RdmapReceive {
  import opened MpaLayout
  import opened DdpSegments
  import opened DdpReassembly
  import opened CompletionQueue
  import opened Stags
  import opened Rdmap
  import opened RdmapWorld
  import opened RdmapGrowth
  import opened RdmapPoll

  predicate ListsAre(s: St, m: Msg, off: nat) {
    s.outstTag == PartList(m, off, true) && s.outstUntag == PartList(m, off, false)
  }

  /** Placement of everything but a read request. */
  lemma PlaceNext(s: St, m: Msg, off: nat, last: bool, b: Bytes)
    requires Steady(s) && MsgOk(m) && !Is(KRead, m) && off + |b| <= |m.data| && b == m.data[off..off + |b|]
    requires off > 0 ==> PartPlaced(s, m, off)
    ensures Place(s, Seg(m.d, off, last, b)).Just? <==> HasRoom(s, m, off, |b|)
    ensures Place(s, Seg(m.d, off, last, b)).Just? ==>
              var t := Place(s, Seg(m.d, off, last, b)).v;
              t == s.(mem := t.mem) && |t.mem| == |s.mem| && PartPlaced(t, m, off + |b|)
  {
    hide Place, Seg, PartPlaced, Put, TagGrants;
    if m.d.ToTag? {
      WriteGrants(s, m.d.stag, m.d.to + off, |b|, m.d.op);
      PlaceTagged(s, m, off, last, b);
    } else {
      PlaceSend(s, m, off, last, b);
    }
  }

  /** An RDMA Write and a read response need write access, and the whole range inside. */
  lemma WriteGrants(s: St, stag: nat, at: nat, n: nat, op: Opcode)
    requires op == RdmaWrite || op == RdmaReadResp
    ensures TagGrants(s, stag, at, n, op) <==>
            && stag in s.tags && s.tags[stag].write
            && s.tags[stag].start <= at < s.tags[stag].end && at + n <= s.tags[stag].end
  {
  }

  /** A read request needs read access to its source. */
  lemma ReadGrants(s: St, stag: nat, at: nat, n: nat)
    ensures TagGrants(s, stag, at, n, RdmaReadReq) <==>
            && stag in s.tags && s.tags[stag].read
            && s.tags[stag].start <= at < s.tags[stag].end && at + n <= s.tags[stag].end
  {
  }

  /** The receiver has somewhere to put it: a posted receive that is long enough, or a tag
      with write access that covers it. */
  predicate HasRoom(s: St, m: Msg, off: nat, n: nat) {
    match m.d
    case ToQueue(qn, msn, op) => qn == RDMAREQ_Q || (s.bufQ != [] && off + n <= s.bufQ[0].len)
    case ToTag(stag, to, op) =>
      && stag in s.tags && s.tags[stag].write
      && s.tags[stag].start <= to + off < s.tags[stag].end && to + off + n <= s.tags[stag].end
  }

  /** The state once a segment has been entered in its list. */
  function Entered(s: St, m: Msg, off: nat): St {
    s.(outstTag := PartList(m, off, true), outstUntag := PartList(m, off, false))
  }

  lemma ProcessMiddle(c: Config, s: St, m: Msg, off: nat, b: Bytes)
    requires ConfigOk(c) && Steady(s) && ListsAre(s, m, off) && |b| > 0
    ensures Process(c, s, Seg(m.d, off, false, b)) == Just(Entered(s, m, off + |b|))
  {
    hide Arrive, Total, Sound;
    PartArrive(m, off, |b|, false);
  }

  /** The state that the completion code starts from. */
  function Cleared(s: St): St { s.(outstTag := [], outstUntag := []) }

  lemma ProcessLastTagged(c: Config, s: St, m: Msg, off: nat, b: Bytes)
    requires ConfigOk(c) && Steady(s) && ListsAre(s, m, off) && m.d.ToTag?
    ensures Process(c, s, Seg(m.d, off, true, b)) == TagRecv(c, Cleared(s), m.d.op, m.d.stag, off + |b|)
    ensures Total(s.outstTag, Arrival(TagKey(m.d.stag), |b|, true)) == off + |b|
  {
    hide Arrive, Total, Sound, TagRecv;
    PartArrive(m, off, |b|, true);
  }

  lemma ProcessLastUntagged(c: Config, s: St, m: Msg, off: nat, b: Bytes)
    requires ConfigOk(c) && Steady(s) && ListsAre(s, m, off) && m.d.ToQueue?
    ensures Steady(Cleared(s))
    ensures var r := UntagRecv(c, Cleared(s), m.d.op, m.d.qn, off + |b|);
            Process(c, s, Seg(m.d, off, true, b)) ==
            if r.Nothing? then Nothing else Just(r.v.(recvMsn := Msn(r.v.recvMsn + 1)))
    ensures Total(s.outstUntag, Arrival(MsgKey(m.d.qn, m.d.msn), |b|, true)) == off + |b|
  {
    hide Arrive, Total, UntagRecv, Msn;
    PartArrive(m, off, |b|, true);
  }

  /** A segment that is not the last of its message. */
  lemma ReceiveMiddle(c: Config, s: St, m: Msg, off: nat, b: Bytes)
    requires ConfigOk(c) && Steady(s) && MsgOk(m) && !Is(KRead, m) && off + |b| <= |m.data| && b == m.data[off..off + |b|]
    requires (off > 0 ==> PartPlaced(s, m, off)) && ListsAre(s, m, off) && |b| > 0
    ensures var r := Receive(c, s, Seg(m.d, off, false, b));
            && (r.Just? <==> HasRoom(s, m, off, |b|))
            && (r.Just? ==> PartPlaced(r.v, m, off + |b|) && |r.v.mem| == |s.mem|
                            && r.v == Entered(s.(mem := r.v.mem), m, off + |b|))
  {
    hide Place, Process, Seg, Sound, HasRoom, MsgOk;
    var g := Seg(m.d, off, false, b);
    PlaceNext(s, m, off, false, b);
    PlaceSteady(s, g);
    if Place(s, g).Just? {
      ProcessMiddle(c, Place(s, g).v, m, off, b);
    }
  }

  /** The last segment of a message for the send queue. */
  lemma ReceiveSend(c: Config, s: St, m: Msg, off: nat, b: Bytes)
    requires ConfigOk(c) && Steady(s) && MsgOk(m) && Is(KSend, m) && off + |b| == |m.data| && b == m.data[off..]
    requires (off > 0 ==> PartPlaced(s, m, off)) && ListsAre(s, m, off)
    ensures var r := Receive(c, s, Seg(m.d, off, true, b));
            && (r.Just? <==> HasRoom(s, m, off, |b|))
            && (r.Just? ==>
                  && s.bufQ != [] && |r.v.mem| == |s.mem| && PartPlaced(s.(mem := r.v.mem), m, |m.data|)
                  && r.v == Cleared(s).(mem := r.v.mem, bufQ := s.bufQ[1..],
                                        rcq := Produced(s.rcq, c.rcqRoom, Cqe(OpRecv, s.bufQ[0].id, |m.data|)),
                                        sinkMsn := Msn(s.sinkMsn + 1), recvMsn := Msn(s.recvMsn + 1)))
  {
    hide Place, Process, Seg, Sound, PartPlaced, Produced, Msn;
    var g := Seg(m.d, off, true, b);
    PlaceNext(s, m, off, true, b);
    PlaceSteady(s, g);
    if Place(s, g).Just? {
      ProcessLastUntagged(c, Place(s, g).v, m, off, b);
    }
  }

  /** The one segment of a read request. */
  lemma ReceiveRequest(c: Config, s: St, m: Msg, q: ReadReq)
    requires ConfigOk(c) && Steady(s) && MsgOk(m) && Is(KRead, m) && s.rrQ == [] && ListsAre(s, m, 0)
    requires |m.data| == REQ_SZ && DecodeReq(m.data) == q
    ensures var r := Receive(c, s, Seg(m.d, 0, true, m.data));
            && (r.Just? <==> TagGrants(s, q.srcStag, q.srcTo, q.size, RdmaReadReq))
            && (r.Just? ==>
                  && q.srcTo + q.size <= |s.mem|
                  && r.v == Cleared(s).(sent := s.sent + Segments(ToTag(q.sinkStag, q.sinkTo, RdmaReadResp), c.maxT,
                                                                  s.mem[q.srcTo..q.srcTo + q.size]),
                                        sinkMsn := Msn(s.sinkMsn + 1), recvMsn := Msn(s.recvMsn + 1)))
  {
    hide Place, Process, Seg, DecodeReq, Grants, Segments, Msn;
    var g := Seg(m.d, 0, true, m.data);
    PlaceRequest(s, m, true);
    PlaceSteady(s, g);
    var t := s.(rrQ := [m.data]);
    ProcessLastUntagged(c, t, m, 0, m.data);
    if TagGrants(s, q.srcStag, q.srcTo, q.size, RdmaReadReq) {
      GrantedFits(s, q.srcStag, q.srcTo, q.size, RdmaReadReq);
    }
    assert [m.data][1..] == [];
  }

  /** The last segment of an RDMA Write. */
  lemma ReceiveWrite(c: Config, s: St, m: Msg, off: nat, b: Bytes)
    requires ConfigOk(c) && Steady(s) && MsgOk(m) && m.d.ToTag? && m.d.op == RdmaWrite
    requires off + |b| == |m.data| && b == m.data[off..]
    requires (off > 0 ==> PartPlaced(s, m, off)) && ListsAre(s, m, off)
    ensures var r := Receive(c, s, Seg(m.d, off, true, b));
            && (r.Just? <==> HasRoom(s, m, off, |b|))
            && (r.Just? ==> |r.v.mem| == |s.mem| && PartPlaced(s.(mem := r.v.mem), m, |m.data|)
                            && r.v == Cleared(s).(mem := r.v.mem))
  {
    hide Place, Process, Seg, Sound, HasRoom, MsgOk, PartPlaced;
    var g := Seg(m.d, off, true, b);
    PlaceNext(s, m, off, true, b);
    PlaceSteady(s, g);
    if Place(s, g).Just? {
      ProcessLastTagged(c, Place(s, g).v, m, off, b);
    }
  }

  // ----- reaping reads -----

  lemma {:induction false} MarkNone(q: seq<Rwr>, stag: nat, len: nat)
    requires !Known(q, stag)
    ensures Mark(q, stag, len) == q
  {
    if q != [] {
      assert q[0].stag != stag;
      forall k | 0 <= k < |q[1..]| ensures q[1..][k].stag != stag {
        assert q[1..][k] == q[k + 1];
      }
      MarkNone(q[1..], stag, len);
      assert q == [q[0]] + q[1..];
    }
  }

  /** With one tag each, a response to the oldest read completes that one and no other. */
  lemma MarkHead(q: seq<Rwr>, len: nat)
    requires q != [] && OneTagEach(q) && (forall k :: 0 <= k < |q| ==> !q[k].complete)
    ensures var r := Mark(q, q[0].stag, len);
            r == [q[0].(complete := true, len := len)] + q[1..] && Ready(r) == 1
  {
    forall k | 0 <= k < |q[1..]| ensures q[1..][k].stag != q[0].stag {
      assert q[1..][k] == q[k + 1];
    }
    MarkNone(q[1..], q[0].stag, len);
    var r := Mark(q, q[0].stag, len);
    assert r[1..] == q[1..];
    if q[1..] != [] {
      assert !q[1].complete && r[1..][0] == q[1];
    }
  }

  lemma ReapHead(c: Config, s: St, len: nat)
    requires s.rwrq != [] && OneTagEach(s.rwrq) && (forall k :: 0 <= k < |s.rwrq| ==> !s.rwrq[k].complete)
    ensures Reap(c, s, s.rwrq[0].stag, len)
         == Just(s.(rwrq := s.rwrq[1..], scq := Produced(s.scq, c.scqRoom, Cqe(OpRdmaRead, s.rwrq[0].id, len))))
  {
    hide Mark, Ready, Produced;
    var w := s.rwrq[0];
    assert Known(s.rwrq, w.stag);
    MarkHead(s.rwrq, len);
    var q := Mark(s.rwrq, w.stag, len);
    assert q[1..] == s.rwrq[1..] && q[..1] == [w.(complete := true, len := len)];
    var done := q[..1];
    assert done[1..] == [] && ReadCqe(done[0]) == Cqe(OpRdmaRead, w.id, len);
    assert ProduceAll(s.scq, c.scqRoom, done) == Produced(s.scq, c.scqRoom, ReadCqe(done[0]));
  }

  /** The last segment of a read response for the oldest outstanding read. */
  lemma ReceiveResponse(c: Config, s: St, m: Msg, off: nat, b: Bytes)
    requires ConfigOk(c) && Steady(s) && MsgOk(m) && Is(KResp, m) && off + |b| == |m.data| && b == m.data[off..]
    requires (off > 0 ==> PartPlaced(s, m, off)) && ListsAre(s, m, off)
    requires s.rwrq != [] && OneTagEach(s.rwrq) && (forall k :: 0 <= k < |s.rwrq| ==> !s.rwrq[k].complete)
    requires s.rwrq[0].stag == m.d.stag
    ensures var r := Receive(c, s, Seg(m.d, off, true, b));
            && (r.Just? <==> HasRoom(s, m, off, |b|))
            && (r.Just? ==>
                  && |r.v.mem| == |s.mem| && PartPlaced(s.(mem := r.v.mem), m, |m.data|)
                  && r.v == Cleared(s).(mem := r.v.mem, rwrq := s.rwrq[1..],
                                        scq := Produced(s.scq, c.scqRoom, Cqe(OpRdmaRead, s.rwrq[0].id, |m.data|))))
  {
    hide Place, Process, Seg, Sound, HasRoom, MsgOk, PartPlaced, Reap, Produced;
    var g := Seg(m.d, off, true, b);
    PlaceNext(s, m, off, true, b);
    PlaceSteady(s, g);
    if Place(s, g).Just? {
      var t := Place(s, g).v;
      ProcessLastTagged(c, t, m, off, b);
      ReapHead(c, Cleared(t), |m.data|);
    }
  }
}
