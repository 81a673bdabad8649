/** Polls that take a read request or a read response keep the invariant. */
module RdmapReads {
  import opened MpaLayout
  import opened DdpSegments
  import opened DdpReassembly
  import opened CompletionQueue
  import opened Stags
  import opened Rdmap
  import opened RdmapWorld
  import opened RdmapGrowth
  import opened RdmapPoll
  import opened RdmapReceive
  import opened RdmapPolls

  /** The next message of its kind is the one after those already received. */
  lemma NextOfKind(out: seq<Msg>, n: nat, k: Kind)
    requires n < |out| && Is(k, out[n])
    ensures |Pick(out[..n], k)| < |Pick(out, k)| && Pick(out, k)[|Pick(out[..n], k)|] == out[n]
  {
    hide Pick, Is;
    PickNext(out, n, k);
    PickPrefix(out, n + 1, k);
    assert Pick(out[..n + 1], k)[|Pick(out[..n], k)|] == out[n];
  }

  // ----- at the responder -----

  /** The read that is asked for next. */
  function Asked(e: End, p: End): nat
    requires e.h.done <= |p.h.out|
  {
    |Pick(p.h.out[..e.h.done], KRead)|
  }

  lemma RequestIs(e: End, p: End, m: Msg)
    requires Link(p, e) && Link(e, p) && Reads(p, e) && e.h.done < |p.h.out| && m == p.h.out[e.h.done] && Is(KRead, m)
    ensures Asked(e, p) < |p.h.issued|
    ensures |m.data| == REQ_SZ && DecodeReq(m.data) == p.h.issued[Asked(e, p)].req
    ensures p.h.issued[Asked(e, p)].req.size > 0
  {
    hide Pick, Is, EncodeReq, DecodeReq, ReqFits, ServedOk, ReadsDone, OnlyReads, RecvCqes, OneTagEach,
         ProgressOk, StreamOk, RecvsOk, SenderOk;
    NextOfKind(p.h.out, e.h.done, KRead);
    ReqRoundTrip(p.h.issued[Asked(e, p)].req);
  }

  function Answer(q: ReadReq, bytes: Bytes): Msg {
    Msg(ToTag(q.sinkStag, q.sinkTo, RdmaReadResp), bytes)
  }

  lemma AfterRequest(e: End, m: Msg, q: ReadReq)
    requires EndOk(e) && MsgOk(m) && Is(KRead, m) && e.h.off == 0 && e.s.rrQ == [] && ListsAre(e.s, m, 0)
    requires |m.data| == REQ_SZ && DecodeReq(m.data) == q && q.size > 0
    ensures Taken(e, m, m.data).Just? <==> TagGrants(e.s, q.srcStag, q.srcTo, q.size, RdmaReadReq)
    ensures Taken(e, m, m.data).Just? ==>
              var t := Taken(e, m, m.data).v;
              && Steady(t) && q.srcTo + q.size <= |e.s.mem|
              && var bytes := e.s.mem[q.srcTo..q.srcTo + q.size];
              && t == Cleared(e.s).(sent := e.s.sent + Segments(Answer(q, bytes).d, e.c.maxT, bytes),
                                    sinkMsn := Msn(e.s.sinkMsn + 1), recvMsn := Msn(e.s.recvMsn + 1))
              && Note(e, t, TheSeg(e, m, m.data))
                 == e.h.(pos := e.h.pos + 1, done := e.h.done + 1, off := 0,
                         served := e.h.served + [bytes], out := e.h.out + [Answer(q, bytes)])
  {
    hide Receive, Msn, Sound, DecodeReq, Segments, TagGrants;
    ReceiveRequest(e.c, e.s, m, q);
    ReceiveSteady(e.c, e.s, TheSeg(e, m, m.data));
  }

  lemma ServedPush(issued: seq<Issue>, n: nat, resps: seq<Msg>, served: seq<Bytes>, bytes: Bytes)
    requires ServedOk(issued, n, resps, served) && n < |issued| && |bytes| == issued[n].req.size
    ensures ServedOk(issued, n + 1, resps + [Answer(issued[n].req, bytes)], served + [bytes])
  {
  }

  lemma LogStill(issued: seq<Issue>, served: seq<Bytes>, more: seq<Bytes>, log: seq<Recv>)
    requires ReadsDone(issued, served, log)
    ensures ReadsDone(issued, served + more, log)
  {
  }

  /** The requester's reads once its peer has answered one more. */
  lemma ReadsAnswered(p: End, e: End, f: End, m: Msg, bytes: Bytes)
    requires Link(p, e) && Link(e, p) && Reads(p, e) && e.h.done < |p.h.out| && m == p.h.out[e.h.done] && Is(KRead, m)
    requires Asked(e, p) < |p.h.issued| && |bytes| == p.h.issued[Asked(e, p)].req.size
    requires f.h.done == e.h.done + 1 && f.h.served == e.h.served + [bytes]
    requires f.h.out == e.h.out + [Answer(p.h.issued[Asked(e, p)].req, bytes)]
    ensures Reads(p, f)
  {
    hide Pick, Is, IssuedOk, ServedOk, ReadsDone, OnlyReads, RecvCqes, OneTagEach,
         ProgressOk, StreamOk, RecvsOk, SenderOk, Waiting;
    var a := Answer(p.h.issued[Asked(e, p)].req, bytes);
    LinkDone(e, p);
    PickNext(p.h.out, e.h.done, KRead);
    PickPush(e.h.out, a, KResp);
    AnswerIs(p.h.issued[Asked(e, p)].req, bytes);
    TakeGrown(e.h.out, a, p.h.done);
    ServedPush(p.h.issued, Asked(e, p), Pick(e.h.out, KResp), e.h.served, bytes);
    LogStill(p.h.issued, e.h.served, [bytes], p.h.readLog);
  }

  lemma AnswerIs(q: ReadReq, bytes: Bytes)
    ensures Is(KResp, Answer(q, bytes)) && !Is(KRead, Answer(q, bytes)) && !Is(KSend, Answer(q, bytes))
  {
  }

  lemma LinkDone(e: End, p: End)
    requires Link(e, p)
    ensures p.h.done <= |e.h.out|
  {
  }

  /** The source of the read lies in a tag with read access. */
  predicate Servable(s: St, q: ReadReq) {
    && q.srcStag in s.tags && s.tags[q.srcStag].read
    && s.tags[q.srcStag].start <= q.srcTo < s.tags[q.srcStag].end && q.srcTo + q.size <= s.tags[q.srcStag].end
  }

  lemma PollRequest(e: End, p: End, m: Msg, b: Bytes)
    requires EndOk(e) && Inv(e, p) && Next(e, p, m, b) && MsgOk(m) && Is(KRead, m) && e.h.off + |b| == |m.data|
    requires e.h.pos < |p.s.sent| && p.s.sent[e.h.pos + 1..] == Pending(p.c, p.h.out, e.h.done + 1, 0)
    ensures Asked(e, p) < |p.h.issued|
    ensures Taken(e, m, b).Just? <==> Servable(e.s, p.h.issued[Asked(e, p)].req)
    ensures Taken(e, m, b).Just? ==> Inv(Polled(e, Taken(e, m, b).v, m, b), p)
  {
    hide Receive, Pending, Pick, Flow, MsgsOk, Matched, RecvCqes, Msn, IssuedOk, ServedOk, ReadsDone, Note,
         OnlyReads, OneTagEach, Sound, ProgressOk, StreamOk, RecvsOk, Reads, Produced, PartPlaced, Taken, TheSeg,
         TagGrants, Segments, DecodeReq, Is;
    NextLists(e, p, m, b);
    LinkDone(e, p);
    RequestIs(e, p, m);
    var q := p.h.issued[Asked(e, p)].req;
    RequestWhole(e, p, m, b);
    AfterRequest(e, m, q);
    ReadGrants(e.s, q.srcStag, q.srcTo, q.size);
    ProgressFields(e, p);
    if Taken(e, m, b).Just? {
      var bytes := e.s.mem[q.srcTo..q.srcTo + q.size];
      var f := Polled(e, Taken(e, m, b).v, m, b);
      RequestKind(m);
      LastProgress(e, p, m, f);
      RecvsSame(e, p, m, f);
      assert Grown(e, f, Answer(q, bytes));
      LinkGrown(e, f, Answer(q, bytes), p);
      ReadsAnswered(p, e, f, m, bytes);
      AnswerIs(q, bytes);
      PickSame(p.h.out, e.h.done, KResp);
      ReadsRequesterGrown(e, f, Answer(q, bytes), p);
    }
  }

  lemma RequestWhole(e: End, p: End, m: Msg, b: Bytes)
    requires Next(e, p, m, b) && Is(KRead, m)
    ensures e.h.off == 0 && b == m.data
  {
  }

  lemma RequestKind(m: Msg)
    requires Is(KRead, m)
    ensures !Is(KSend, m) && !Is(KResp, m) && m.d.ToQueue?
  {
  }

  // ----- at the requester -----

  lemma ResponseIs(e: End, p: End, m: Msg)
    requires Link(p, e) && Link(e, p) && Reads(e, p) && e.h.done < |p.h.out| && m == p.h.out[e.h.done] && Is(KResp, m)
    ensures var n := |e.h.readLog|;
            && n < |p.h.served| && n < |e.h.issued|
            && m == Answer(e.h.issued[n].req, p.h.served[n]) && |m.data| == e.h.issued[n].req.size
            && e.s.rwrq == Waiting(e.h.issued[n..]) && e.s.rwrq != [] && OneTagEach(e.s.rwrq)
            && e.s.rwrq[0] == Rwr(e.h.issued[n].id, m.d.stag, false, 0)
  {
    hide Pick, Is, ReqFits, OnlyReads, RecvCqes, OneTagEach, ProgressOk, StreamOk, RecvsOk, SenderOk, EncodeReq;
    NextOfKind(p.h.out, e.h.done, KResp);
    assert e.h.issued[|e.h.readLog|..][0] == e.h.issued[|e.h.readLog|];
  }

  lemma OneFinished(w: Rwr, issues: seq<Issue>, mem: Bytes)
    requires issues != []
    ensures Finished([w], issues, mem) == [Recv(w.id, w.len, Window(mem, issues[0].req.sinkTo, w.len))]
  {
    assert [w][1..] == [];
  }

  lemma AfterResponse(e: End, m: Msg, b: Bytes, n: nat)
    requires EndOk(e) && MsgOk(m) && Is(KResp, m) && e.h.off + |b| == |m.data| && b == m.data[e.h.off..]
    requires (e.h.off > 0 ==> PartPlaced(e.s, m, e.h.off)) && ListsAre(e.s, m, e.h.off)
    requires n == |e.h.readLog| < |e.h.issued| && e.h.issued[n].req.sinkTo == m.d.to
    requires e.s.rwrq == Waiting(e.h.issued[n..]) && OneTagEach(e.s.rwrq) && e.s.rwrq[0].stag == m.d.stag
    ensures Taken(e, m, b).Just? <==> HasRoom(e.s, m, e.h.off, |b|)
    ensures Taken(e, m, b).Just? ==>
              var t := Taken(e, m, b).v;
              && Steady(t)
              && t == Cleared(e.s).(mem := t.mem, rwrq := e.s.rwrq[1..],
                                    scq := Produced(e.s.scq, e.c.scqRoom, Cqe(OpRdmaRead, e.h.issued[n].id, |m.data|)))
              && Note(e, t, TheSeg(e, m, b))
                 == e.h.(pos := e.h.pos + 1, done := e.h.done + 1, off := 0,
                         readLog := e.h.readLog + [Recv(e.h.issued[n].id, |m.data|, m.data)],
                         lostS := e.h.lostS || |e.s.scq| + 1 > e.c.scqRoom)
  {
    hide Receive, HasRoom, Steady, Sound, Produced, Note, OneTagEach, PartPlaced, ListsAre, TheSeg;
    TheSegIs(e, m, b);
    ReceiveResponse(e.c, e.s, m, e.h.off, b);
    ReceiveSteady(e.c, e.s, TheSeg(e, m, b));
    if Taken(e, m, b).Just? {
      NoteResponse(e, m, b, n, Taken(e, m, b).v);
    }
  }

  lemma TheSegIs(e: End, m: Msg, b: Bytes)
    ensures TheSeg(e, m, b) == Seg(m.d, e.h.off, e.h.off + |b| == |m.data|, b)
  {
  }

  lemma NoteResponse(e: End, m: Msg, b: Bytes, n: nat, t: St)
    requires EndOk(e) && MsgOk(m) && Is(KResp, m) && e.h.off + |b| == |m.data|
    requires ListsAre(e.s, m, e.h.off) && PartPlaced(e.s.(mem := t.mem), m, |m.data|)
    requires n == |e.h.readLog| < |e.h.issued| && e.h.issued[n].req.sinkTo == m.d.to
    requires e.s.rwrq == Waiting(e.h.issued[n..]) && OneTagEach(e.s.rwrq) && e.s.rwrq[0].stag == m.d.stag
    ensures Note(e, t, TheSeg(e, m, b))
         == e.h.(pos := e.h.pos + 1, done := e.h.done + 1, off := 0,
                 readLog := e.h.readLog + [Recv(e.h.issued[n].id, |m.data|, m.data)],
                 lostS := e.h.lostS || |e.s.scq| + 1 > e.c.scqRoom)
  {
    hide Steady, Sound, Total, Window, NoteRead, OneTagEach;
    ProcessLastTagged(e.c, e.s, m, e.h.off, b);
    WholeWindow(t.mem, m.d.to, m.data);
    NoteHead(e, t, Advance(e.h, true, |b|), m, n);
  }

  lemma NoteHead(e: End, t: St, h: Hist, m: Msg, n: nat)
    requires n == |h.readLog| < |h.issued| && e.s.rwrq == Waiting(h.issued[n..]) && OneTagEach(e.s.rwrq)
    requires m.d.ToTag? && e.s.rwrq[0].stag == m.d.stag
    ensures NoteRead(e, t, h, m.d.stag, |m.data|)
         == h.(readLog := h.readLog + [Recv(h.issued[n].id, |m.data|, Window(t.mem, h.issued[n].req.sinkTo, |m.data|))],
               lostS := h.lostS || |e.s.scq| + 1 > e.c.scqRoom)
  {
    hide Window, Mark, Ready, Finished, OneTagEach;
    MarkHead(e.s.rwrq, |m.data|);
    var w := e.s.rwrq[0].(complete := true, len := |m.data|);
    assert ([w] + e.s.rwrq[1..])[..1] == [w];
    OneFinished(w, h.issued[n..], t.mem);
  }

  lemma LogPush(issued: seq<Issue>, served: seq<Bytes>, log: seq<Recv>, r: Recv)
    requires ReadsDone(issued, served, log) && |log| < |served| && |log| < |issued|
    requires r == Recv(issued[|log|].id, issued[|log|].req.size, served[|log|])
    ensures ReadsDone(issued, served, log + [r])
  {
  }

  lemma OnlyReadsPush(q: seq<Cqe>, c: Cqe)
    ensures OnlyReads(q + [c]) == OnlyReads(q) + if c.op == OpRdmaRead then [c] else []
  {
    assert (q + [c])[..|q|] == q;
  }

  lemma WaitingTail(issued: seq<Issue>, n: nat)
    requires n < |issued|
    ensures Waiting(issued[n..])[1..] == Waiting(issued[n + 1..])
  {
    assert issued[n..][1..] == issued[n + 1..];
  }

  lemma OneTagTail(q: seq<Rwr>)
    requires OneTagEach(q) && q != []
    ensures OneTagEach(q[1..])
  {
  }

  /** The requester's reads once one more is complete. */
  lemma ReadsFinished(e: End, f: End, p: End, m: Msg)
    requires Link(p, e) && Link(e, p) && Reads(e, p) && e.h.done < |p.h.out| && m == p.h.out[e.h.done] && Is(KResp, m)
    requires |e.h.readLog| < |e.h.issued|
    requires var id := e.h.issued[|e.h.readLog|].id;
             && f.h.readLog == e.h.readLog + [Recv(id, |m.data|, m.data)]
             && f.s.scq == Produced(e.s.scq, e.c.scqRoom, Cqe(OpRdmaRead, id, |m.data|))
    requires f.h.out == e.h.out && f.h.issued == e.h.issued && f.h.scqTaken == e.h.scqTaken && f.h.done == e.h.done + 1
    requires f.s.rwrq == e.s.rwrq[..][1..] && f.h.lostS == (e.h.lostS || |e.s.scq| + 1 > e.c.scqRoom)
    ensures Reads(f, p)
  {
    hide Pick, Is, IssuedOk, OnlyReads, RecvCqes, OneTagEach, ProgressOk, StreamOk, RecvsOk, SenderOk, Waiting,
         ServedOk, ReadsDone, EncodeReq;
    var n := |e.h.readLog|;
    var r := Recv(e.h.issued[n].id, |m.data|, m.data);
    ResponseIs(e, p, m);
    PickNext(p.h.out, e.h.done, KResp);
    LogPush(e.h.issued, p.h.served, e.h.readLog, r);
    WaitingTail(e.h.issued, n);
    OneTagTail(e.s.rwrq);
    CqesPush(e.h.readLog, r, OpRdmaRead);
    if !f.h.lostS {
      var c := Cqe(OpRdmaRead, r.id, r.len);
      assert e.h.scqTaken + (e.s.scq + [c]) == e.h.scqTaken + e.s.scq + [c];
      OnlyReadsPush(e.h.scqTaken + e.s.scq, c);
    }
    LinkDone(e, p);
  }

  lemma PollResponse(e: End, p: End, m: Msg, b: Bytes)
    requires EndOk(e) && Inv(e, p) && Next(e, p, m, b) && MsgOk(m) && Is(KResp, m) && e.h.off + |b| == |m.data|
    requires e.h.pos < |p.s.sent| && p.s.sent[e.h.pos + 1..] == Pending(p.c, p.h.out, e.h.done + 1, 0)
    ensures Taken(e, m, b).Just? <==> HasRoom(e.s, m, e.h.off, |b|)
    ensures Taken(e, m, b).Just? ==> Inv(Polled(e, Taken(e, m, b).v, m, b), p)
  {
    hide Receive, Pending, Pick, Flow, MsgsOk, Matched, RecvCqes, Msn, IssuedOk, ServedOk, ReadsDone, Note, Waiting,
         OnlyReads, OneTagEach, Sound, ProgressOk, StreamOk, RecvsOk, Reads, Produced, PartPlaced, Taken, TheSeg, HasRoom;
    NextLists(e, p, m, b);
    LinkDone(e, p);
    ResponseIs(e, p, m);
    AfterResponse(e, m, b, |e.h.readLog|);
    ProgressFields(e, p);
    if Taken(e, m, b).Just? {
      var f := Polled(e, Taken(e, m, b).v, m, b);
      LastProgress(e, p, m, f);
      RecvsSame(e, p, m, f);
      LinkSender(e, f, p);
      assert e.s.rwrq[..] == e.s.rwrq;
      ReadsFinished(e, f, p, m);
      PickSame(p.h.out, e.h.done, KRead);
      ReadsResponderMoved(p, e, f);
    }
  }

  /** At the other end only the count of requests taken matters. */
  lemma ReadsResponderMoved(p: End, e: End, f: End)
    requires e.h.done <= |p.h.out| && p.h.done <= |e.h.out| && Reads(p, e)
    requires f.h.done <= |p.h.out| && f.h.out == e.h.out && f.h.served == e.h.served
    requires Pick(p.h.out[..f.h.done], KRead) == Pick(p.h.out[..e.h.done], KRead)
    ensures Reads(p, f)
  {
    hide Pick, IssuedOk, ServedOk, ReadsDone, OnlyReads, RecvCqes, OneTagEach, Waiting;
  }
}
