/** What the protocol promises its users, for every run of two connected ends. */
module RdmapTheorems {
  import opened MpaLayout
  import opened DdpSegments
  import opened DdpReassembly
  import opened CompletionQueue
  import opened Stags
  import opened Rdmap
  import opened RdmapWorld
  import opened RdmapGrowth
  import opened RdmapPoll
  import opened RdmapReceive
  import opened RdmapPolls
  import opened RdmapReads
  import opened RdmapRun
  import opened RdmapQueues

  /** A state some run of legal steps leads to, from two ends that have just been connected. */
  predicate Reached(ca: Config, ma: Bytes, cb: Config, mb: Bytes, steps: seq<Step>, w: World) {
    var start := World(Start(ca, ma), Start(cb, mb));
    && GoodConfig(ca) && GoodConfig(cb)
    && RunLegal(start, steps) && Run(start, steps) == Just(w)
  }

  lemma ReachedOk(ca: Config, ma: Bytes, cb: Config, mb: Bytes, steps: seq<Step>, w: World)
    requires Reached(ca, ma, cb, mb, steps, w)
    ensures WorldOk(w) && Inv(w.a, w.b) && Inv(w.b, w.a)
  {
    hide WorldOk, Inv, RunLegal, Run;
    var start := World(Start(ca, ma), Start(cb, mb));
    Fresh(ca, ma, cb, mb);
    RunKeeps(start, steps);
    Both(w);
  }

  lemma Both(w: World)
    requires WorldOk(w)
    ensures Inv(w.a, w.b) && Inv(w.b, w.a)
  {
    hide Inv, EndOk;
    InvBothWays(w.a, w.b);
  }

  lemma ReachedCounted(ca: Config, ma: Bytes, cb: Config, mb: Bytes, steps: seq<Step>, w: World)
    requires Reached(ca, ma, cb, mb, steps, w)
    ensures Counted(w)
  {
    hide WorldOk, RunLegal, Run;
    Fresh(ca, ma, cb, mb);
    NothingYet(ca, ma, cb, mb);
    RunCounted(World(Start(ca, ma), Start(cb, mb)), steps);
  }

  lemma NothingYet(ca: Config, ma: Bytes, cb: Config, mb: Bytes)
    ensures Counted(World(Start(ca, ma), Start(cb, mb)))
    ensures LeavesRoom(Start(ca, ma)) && LeavesRoom(Start(cb, mb))
  {
  }

  // ----- sends -----

  lemma {:induction false} MatchedAt(posted: seq<Wrd>, sends: seq<Msg>, k: nat)
    requires k < |sends| <= |posted|
    ensures Matched(posted, sends)[k] == Recv(posted[k].id, |sends[k].data|, sends[k].data)
    decreases |sends|
  {
    if k < |sends| - 1 {
      MatchedAt(posted, sends[..|sends| - 1], k);
    }
  }

  lemma {:induction false} CqesAt(log: seq<Recv>, op: Op, k: nat)
    ensures |RecvCqes(log, op)| == |log|
    ensures k < |log| ==> RecvCqes(log, op)[k] == Cqe(op, log[k].id, log[k].len)
    decreases |log|
  {
    if log != [] {
      CqesAt(log[..|log| - 1], op, k);
    }
  }

  /** e's k-th receive completion carries the k-th posted id and the k-th sent length, and
      at that moment its buffer held the k-th message. */
  predicate SendsInOrder(p: End, e: End) {
    var sends := Pick(p.h.out, KSend);
    && |e.h.recvLog| <= |sends| && |e.h.recvLog| <= |e.h.posted|
    && (forall k :: 0 <= k < |e.h.recvLog| ==>
          e.h.recvLog[k] == Recv(e.h.posted[k].id, |sends[k].data|, sends[k].data))
    && e.s.bufQ == e.h.posted[|e.h.recvLog|..]
  }

  /** The receive completions consumed and those waiting are exactly these. */
  predicate RecvsReported(e: End) {
    && |e.h.rcqTaken + e.s.rcq| == |e.h.recvLog|
    && forall k :: 0 <= k < |e.h.recvLog| ==>
         (e.h.rcqTaken + e.s.rcq)[k] == Cqe(OpRecv, e.h.recvLog[k].id, e.h.recvLog[k].len)
  }

  /** They are, unless one found the receive queue full; then there are fewer. */
  predicate RecvQueueExact(e: End) {
    && (RecvsReported(e) <==> !e.h.lostR)
    && (e.h.lostR ==> |e.h.rcqTaken + e.s.rcq| < |e.h.recvLog|)
  }

  /** recv_msn and sink_msn count the untagged messages completely received. */
  predicate MsnsExact(p: End, e: End) {
    && e.h.done <= |p.h.out|
    && e.s.recvMsn == e.s.sinkMsn == (1 + |Pick(p.h.out[..e.h.done], KUntagged)|) % 0x1_0000_0000
    && p.s.sendMsn == (1 + |Pick(p.h.out, KUntagged)|) % 0x1_0000_0000
  }

  lemma SendsOf(p: End, e: End)
    requires Link(p, e) && RecvCount(e)
    ensures SendsInOrder(p, e) && RecvQueueExact(e) && MsnsExact(p, e)
  {
    hide PartPlaced, Pending, Pick, Flow, MsgsOk, StreamOk, Matched, RecvCqes;
    var some := Pick(p.h.out[..e.h.done], KSend);
    PickPrefix(p.h.out, e.h.done, KSend);
    forall k | 0 <= k < |e.h.recvLog|
      ensures e.h.recvLog[k] == Recv(e.h.posted[k].id, |some[k].data|, some[k].data)
    {
      MatchedAt(e.h.posted, some, k);
    }
    CqesAt(e.h.recvLog, OpRecv, 0);
    forall k | 0 <= k < |e.h.recvLog|
      ensures RecvCqes(e.h.recvLog, OpRecv)[k] == Cqe(OpRecv, e.h.recvLog[k].id, e.h.recvLog[k].len)
    {
      CqesAt(e.h.recvLog, OpRecv, k);
    }
  }

  /** The send and receive side of the protocol, in both directions of every run. */
  lemma SendsTheorem(ca: Config, ma: Bytes, cb: Config, mb: Bytes, steps: seq<Step>, w: World)
    requires Reached(ca, ma, cb, mb, steps, w)
    ensures SendsInOrder(w.a, w.b) && RecvQueueExact(w.b) && MsnsExact(w.a, w.b)
    ensures SendsInOrder(w.b, w.a) && RecvQueueExact(w.a) && MsnsExact(w.b, w.a)
  {
    hide Link, SendsInOrder, RecvQueueExact, MsnsExact, Reached, Reads, WorldOk, Sound, RecvCount, ReadCount;
    ReachedOk(ca, ma, cb, mb, steps, w);
    ReachedCounted(ca, ma, cb, mb, steps, w);
    SendsOf(w.a, w.b);
    SendsOf(w.b, w.a);
  }

  // ----- reads -----

  /** e's reads complete once each, in the order they were issued, with the length asked
      for, the sink then holding the bytes that p's memory held when p served the read;
      the others are still queued, pending, in that order. */
  predicate ReadsInOrder(e: End, p: End) {
    && |e.h.readLog| <= |p.h.served| <= |e.h.issued|
    && (forall k :: 0 <= k < |e.h.readLog| ==>
          e.h.readLog[k] == Recv(e.h.issued[k].id, e.h.issued[k].req.size, p.h.served[k]))
    && |e.s.rwrq| == |e.h.issued| - |e.h.readLog|
    && (forall k :: 0 <= k < |e.s.rwrq| ==>
          var i := e.h.issued[|e.h.readLog| + k];
          e.s.rwrq[k] == Rwr(i.id, i.req.sinkStag, false, 0))
  }

  /** The read completions on the send queue, consumed and waiting, are exactly these. */
  predicate ReadsReported(e: End) {
    var q := OnlyReads(e.h.scqTaken + e.s.scq);
    && |q| == |e.h.readLog|
    && forall k :: 0 <= k < |q| ==> q[k] == Cqe(OpRdmaRead, e.h.readLog[k].id, e.h.readLog[k].len)
  }

  /** They are, unless one found the send queue full; then there are fewer. */
  predicate ReadQueueExact(e: End) {
    && (ReadsReported(e) <==> !e.h.lostS)
    && (e.h.lostS ==> |OnlyReads(e.h.scqTaken + e.s.scq)| < |e.h.readLog|)
  }

  lemma ReadsOf(e: End, p: End)
    requires Link(e, p) && Link(p, e) && Reads(e, p) && ReadCount(e)
    ensures ReadsInOrder(e, p) && ReadQueueExact(e)
  {
    hide Pick, IssuedOk, OnlyReads, RecvCqes, OneTagEach, ProgressOk, StreamOk, RecvsOk, SenderOk;
    LinkDone(e, p);
    LinkDone(p, e);
    PickPrefix(p.h.out, e.h.done, KResp);
    CqesAt(e.h.readLog, OpRdmaRead, 0);
    forall k | 0 <= k < |e.h.readLog|
      ensures RecvCqes(e.h.readLog, OpRdmaRead)[k] == Cqe(OpRdmaRead, e.h.readLog[k].id, e.h.readLog[k].len)
    {
      CqesAt(e.h.readLog, OpRdmaRead, k);
    }
  }

  /** RDMA Read, in both directions of every run. */
  lemma ReadsTheorem(ca: Config, ma: Bytes, cb: Config, mb: Bytes, steps: seq<Step>, w: World)
    requires Reached(ca, ma, cb, mb, steps, w)
    ensures ReadsInOrder(w.a, w.b) && ReadQueueExact(w.a)
    ensures ReadsInOrder(w.b, w.a) && ReadQueueExact(w.b)
  {
    hide Link, Reads, Reached, ReadsInOrder, ReadQueueExact, WorldOk, Sound, RecvCount, ReadCount;
    ReachedOk(ca, ma, cb, mb, steps, w);
    ReachedCounted(ca, ma, cb, mb, steps, w);
    ReadsOf(w.a, w.b);
    ReadsOf(w.b, w.a);
  }

  /** An end that leaves room for what it asks for, at each call, gets every completion:
      receives and reads, both queues, whatever its peer does. */
  lemma NoneDropped(ca: Config, ma: Bytes, cb: Config, mb: Bytes, steps: seq<Step>, w: World, atA: bool)
    requires Reached(ca, ma, cb, mb, steps, w)
    requires RunCareful(World(Start(ca, ma), Start(cb, mb)), steps, atA)
    ensures RecvsReported(EndAt(w, atA)) && ReadsReported(EndAt(w, atA))
  {
    hide Run, RunLegal, RunCareful, GoodConfig, RecvsReported, ReadsReported;
    var start := World(Start(ca, ma), Start(cb, mb));
    NothingYet(ca, ma, cb, mb);
    RunLeavesRoom(start, steps, atA);
    SendsTheorem(ca, ma, cb, mb, steps, w);
    ReadsTheorem(ca, ma, cb, mb, steps, w);
  }

  // ----- when everything has arrived -----

  lemma AllReceived(p: End, e: End)
    requires Link(p, e) && e.h.pos == |p.s.sent|
    ensures e.h.done == |p.h.out| && e.s.outstTag == [] && e.s.outstUntag == []
    ensures |e.h.recvLog| == |Pick(p.h.out, KSend)|
  {
    hide PartPlaced, Pick, Flow, MsgsOk, Msn, Matched, RecvCqes, Limit, Cut;
    assert p.h.out[..|p.h.out|] == p.h.out;
    assert p.s.sent[e.h.pos..] == [];
  }

  /** Once both ends have read all that was sent, every message is received, no read is
      left waiting, and every read issued has completed. */
  lemma NothingLost(ca: Config, ma: Bytes, cb: Config, mb: Bytes, steps: seq<Step>, w: World)
    requires Reached(ca, ma, cb, mb, steps, w)
    requires w.a.h.pos == |w.b.s.sent| && w.b.h.pos == |w.a.s.sent|
    ensures |w.b.h.recvLog| == |Pick(w.a.h.out, KSend)| && |w.a.h.recvLog| == |Pick(w.b.h.out, KSend)|
    ensures |w.a.h.readLog| == |w.a.h.issued| && w.a.s.rwrq == []
    ensures |w.b.h.readLog| == |w.b.h.issued| && w.b.s.rwrq == []
  {
    hide Link, Reads, Reached, WorldOk, Sound, Pick;
    ReachedOk(ca, ma, cb, mb, steps, w);
    AllReceived(w.a, w.b);
    AllReceived(w.b, w.a);
    AllRead(w.a, w.b);
    AllRead(w.b, w.a);
  }

  lemma AllRead(e: End, p: End)
    requires p.h.done == |e.h.out| && e.h.done == |p.h.out| && Reads(e, p)
    ensures |e.h.readLog| == |e.h.issued| && e.s.rwrq == []
  {
    hide Pick, OnlyReads, RecvCqes, OneTagEach, EncodeReq, ReqFits;
    assert p.h.out[..|p.h.out|] == p.h.out && e.h.out[..|e.h.out|] == e.h.out;
  }

  // ----- when a poll fails -----

  /** A poll with something to read fails exactly when its segment is not welcome: no
      posted receive or one too short, no tag that grants the write, or a read request
      whose source tag does not grant the read. Nothing else can go wrong. */
  lemma PollFailsExactly(ca: Config, ma: Bytes, cb: Config, mb: Bytes, steps: seq<Step>, w: World)
    requires Reached(ca, ma, cb, mb, steps, w)
    ensures w.a.h.pos < |w.b.s.sent| ==> (Act(w.a, w.b.s.sent, Poll).Nothing? <==> !Welcome(w.a, w.b))
    ensures w.b.h.pos < |w.a.s.sent| ==> (Act(w.b, w.a.s.sent, Poll).Nothing? <==> !Welcome(w.b, w.a))
  {
    hide Inv, Reached, Act, Welcome, EndOk;
    ReachedOk(ca, ma, cb, mb, steps, w);
    if w.a.h.pos < |w.b.s.sent| {
      PollNext(w.a, w.b);
    }
    if w.b.h.pos < |w.a.s.sent| {
      PollNext(w.b, w.a);
    }
  }

  // ----- what the demand on the size of a read is for -----

  /** A read of no bytes is served without an answer, so its entry stays at the head of the
      requester's queue. */
  lemma ZeroReadUnanswered(c: Config, s: St, m: Msg, q: ReadReq)
    requires ConfigOk(c) && Steady(s) && MsgOk(m) && Is(KRead, m) && s.rrQ == [] && ListsAre(s, m, 0)
    requires |m.data| == REQ_SZ && DecodeReq(m.data) == q && TagGrants(s, q.srcStag, q.srcTo, q.size, RdmaReadReq)
    ensures var r := Receive(c, s, Seg(m.d, 0, true, m.data));
            r.Just? && (r.v.sent == s.sent <==> q.size == 0)
  {
    hide Receive, DecodeReq, TagGrants, Msn, Seg;
    ReceiveRequest(c, s, m, q);
    var bytes := s.mem[q.srcTo..q.srcTo + q.size];
    if q.size == 0 {
      assert s.sent + [] == s.sent;
    } else {
      assert Segments(ToTag(q.sinkStag, q.sinkTo, RdmaReadResp), c.maxT, bytes) != [];
    }
  }
}
