/** Every poll keeps the invariant. */
module RdmapPolls {
  import opened MpaLayout
  import opened DdpSegments
  import opened DdpReassembly
  import opened CompletionQueue
  import opened Stags
  import opened Rdmap
  import opened RdmapWorld
  import opened RdmapGrowth
  import opened RdmapPoll
  import opened RdmapReceive

  /** e after a poll that took the next segment of m. */
  function Polled(e: End, t: St, m: Msg, b: Bytes): End {
    End(e.c, t, Note(e, t, TheSeg(e, m, b)))
  }

  function Taken(e: End, m: Msg, b: Bytes): Opt<St> {
    if EndOk(e) then Receive(e.c, e.s, TheSeg(e, m, b)) else Nothing
  }

  lemma NextLists(e: End, p: End, m: Msg, b: Bytes)
    requires Link(p, e) && Next(e, p, m, b)
    ensures ListsAre(e.s, m, e.h.off) && e.s.rrQ == [] && (e.h.off > 0 ==> PartPlaced(e.s, m, e.h.off))
  {
    hide PartPlaced, Pending, Pick, Flow, MsgsOk, Matched, RecvCqes, Msn;
  }

  lemma WholeWindow(mem: Bytes, at: nat, data: Bytes)
    requires at + |data| <= |mem| && mem[at..at + |data|] == data[..|data|]
    ensures Window(mem, at, |data|) == data
  {
  }

  // ----- a segment that is not the last -----

  lemma MiddleKeepsLink(e: End, p: End, m: Msg, b: Bytes, t: St)
    requires EndOk(e) && Link(p, e) && Next(e, p, m, b) && |b| > 0 && e.h.off + |b| < |m.data|
    requires PartPlaced(t, m, e.h.off + |b|) && t == Entered(e.s.(mem := t.mem), m, e.h.off + |b|)
    requires e.h.pos < |p.s.sent| && p.s.sent[e.h.pos + 1..] == Pending(p.c, p.h.out, e.h.done, e.h.off + |b|)
    ensures Link(p, Polled(e, t, m, b))
  {
    hide PartPlaced, Pending, Pick, Flow, MsgsOk, Matched, RecvCqes, Msn;
  }

  lemma PollMiddle(e: End, p: End, m: Msg, b: Bytes)
    requires EndOk(e) && Inv(e, p) && Next(e, p, m, b) && MsgOk(m) && !Is(KRead, m) && |b| > 0 && e.h.off + |b| < |m.data|
    requires e.h.pos < |p.s.sent| && p.s.sent[e.h.pos + 1..] == Pending(p.c, p.h.out, e.h.done, e.h.off + |b|)
    ensures Taken(e, m, b).Just? <==> HasRoom(e.s, m, e.h.off, |b|)
    ensures Taken(e, m, b).Just? ==> Inv(Polled(e, Taken(e, m, b).v, m, b), p)
  {
    hide Receive, PartPlaced, Pending, Pick, Flow, MsgsOk, Matched, RecvCqes, Msn, Seg, IssuedOk, ServedOk, ReadsDone,
         OnlyReads, OneTagEach, HasRoom, Sound;
    NextLists(e, p, m, b);
    ReceiveMiddle(e.c, e.s, m, e.h.off, b);
    ReceiveSteady(e.c, e.s, TheSeg(e, m, b));
    if Taken(e, m, b).Just? {
      var t := Taken(e, m, b).v;
      MiddleKeepsLink(e, p, m, b, t);
      SegLast(m.d, e.h.off, false, b);
      var f := Polled(e, t, m, b);
      assert f.h == e.h.(pos := f.h.pos, off := f.h.off);
      assert Link(f, p);
    }
  }

  lemma SegLast(d: Dest, off: nat, last: bool, b: Bytes)
    ensures Seg(d, off, last, b).last == last && Seg(d, off, last, b).data == b
  {
  }

  // ----- the last segment -----

  /** What every last segment does to the receiver's progress. */
  lemma LastProgress(e: End, p: End, m: Msg, f: End)
    requires Link(p, e) && e.h.done < |p.h.out| && m == p.h.out[e.h.done]
    requires e.h.pos < |p.s.sent| && p.s.sent[e.h.pos + 1..] == Pending(p.c, p.h.out, e.h.done + 1, 0)
    requires f.h.pos == e.h.pos + 1 && f.h.done == e.h.done + 1 && f.h.off == 0
    requires f.s.rrQ == [] && f.s.outstTag == [] && f.s.outstUntag == []
    requires f.s.recvMsn == (if m.d.ToQueue? then Msn(e.s.recvMsn + 1) else e.s.recvMsn) && f.s.sinkMsn == f.s.recvMsn
    ensures ProgressOk(f, p.h.out) && StreamOk(f, p.c, p.h.out, p.s.sent)
  {
    hide PartPlaced, Pending, Pick, Flow, MsgsOk, Msn, RecvsOk;
    PickNext(p.h.out, e.h.done, KUntagged);
    MsnNext(1 + |Pick(p.h.out[..e.h.done], KUntagged)|);
    if f.h.done < |p.h.out| {
      NoParts(p.h.out[f.h.done]);
    }
  }

  /** A message for anything but the send queue leaves the receives alone. */
  lemma RecvsSame(e: End, p: End, m: Msg, f: End)
    requires Link(p, e) && e.h.done < |p.h.out| && m == p.h.out[e.h.done] && !Is(KSend, m)
    requires f.h.done == e.h.done + 1 && f.h.posted == e.h.posted && f.h.recvLog == e.h.recvLog
    requires f.h.rcqTaken == e.h.rcqTaken && f.h.lostR == e.h.lostR && f.s.bufQ == e.s.bufQ && f.s.rcq == e.s.rcq
    ensures RecvsOk(f, p.h.out)
  {
    hide PartPlaced, Pending, Pick, Flow, MsgsOk, Msn, Matched, RecvCqes, Is;
    PickNext(p.h.out, e.h.done, KSend);
    assert Pick(p.h.out[..e.h.done], KSend) + [] == Pick(p.h.out[..e.h.done], KSend);
  }

  /** The number of requests or responses received does not change. */
  lemma PickSame(out: seq<Msg>, n: nat, k: Kind)
    requires n < |out| && !Is(k, out[n])
    ensures Pick(out[..n + 1], k) == Pick(out[..n], k)
  {
    hide Pick, Is;
    PickNext(out, n, k);
    assert Pick(out[..n], k) + [] == Pick(out[..n], k);
  }

  lemma ReadsBothSame(e: End, p: End, m: Msg, f: End)
    requires Link(p, e) && Link(e, p) && Reads(e, p) && Reads(p, e)
    requires e.h.done < |p.h.out| && m == p.h.out[e.h.done] && !Is(KRead, m) && !Is(KResp, m)
    requires f.h.done == e.h.done + 1 && f.h.out == e.h.out && f.h.served == e.h.served && SameReads(e, f)
    ensures Reads(f, p) && Reads(p, f)
  {
    hide Pick, IssuedOk, ServedOk, ReadsDone, OnlyReads, RecvCqes, Is, OneTagEach;
    PickSame(p.h.out, e.h.done, KRead);
    PickSame(p.h.out, e.h.done, KResp);
  }

  // ----- an RDMA Write -----

  lemma PollWrite(e: End, p: End, m: Msg, b: Bytes)
    requires EndOk(e) && Inv(e, p) && Next(e, p, m, b) && MsgOk(m) && m.d.ToTag? && m.d.op == RdmaWrite && e.h.off + |b| == |m.data|
    requires e.h.pos < |p.s.sent| && p.s.sent[e.h.pos + 1..] == Pending(p.c, p.h.out, e.h.done + 1, 0)
    ensures Taken(e, m, b).Just? <==> HasRoom(e.s, m, e.h.off, |b|)
    ensures Taken(e, m, b).Just? ==> Inv(Polled(e, Taken(e, m, b).v, m, b), p)
  {
    hide Receive, PartPlaced, Pending, Pick, Flow, MsgsOk, Matched, RecvCqes, Msn, IssuedOk, ServedOk, ReadsDone,
         OnlyReads, OneTagEach, HasRoom, Sound, ProgressOk, StreamOk, RecvsOk, Reads;
    NextLists(e, p, m, b);
    ReceiveWrite(e.c, e.s, m, e.h.off, b);
    ReceiveSteady(e.c, e.s, TheSeg(e, m, b));
    ProgressFields(e, p);
    if Taken(e, m, b).Just? {
      var f := Polled(e, Taken(e, m, b).v, m, b);
      LastProgress(e, p, m, f);
      RecvsSame(e, p, m, f);
      ReadsBothSame(e, p, m, f);
      LinkSender(e, f, p);
    }
  }

  lemma ProgressFields(e: End, p: End)
    requires Link(p, e)
    ensures e.h.done <= |p.h.out| && e.s.rrQ == [] && e.s.sinkMsn == e.s.recvMsn
  {
    hide PartPlaced, Pending, Pick, Flow, MsgsOk, Matched, RecvCqes, Msn;
  }

  /** p's side of the link does not depend on what else changes at e. */
  lemma LinkSender(e: End, f: End, p: End)
    requires Link(e, p) && f.c == e.c && f.h.out == e.h.out && f.s.sent == e.s.sent && f.s.sendMsn == e.s.sendMsn
    ensures Link(f, p)
  {
    hide ProgressOk, StreamOk, RecvsOk, Flow, Pick, MsgsOk, Msn;
  }

  // ----- a message for the send queue -----

  lemma MatchedPush(posted: seq<Wrd>, sends: seq<Msg>, m: Msg)
    requires |sends| < |posted|
    ensures Matched(posted, sends + [m]) == Matched(posted, sends) + [Recv(posted[|sends|].id, |m.data|, m.data)]
  {
    assert (sends + [m])[..|sends|] == sends;
  }

  lemma CqesPush(log: seq<Recv>, r: Recv, op: Op)
    ensures RecvCqes(log + [r], op) == RecvCqes(log, op) + [Cqe(op, r.id, r.len)]
  {
    assert (log + [r])[..|log|] == log;
  }

  lemma RecvsPush(e: End, p: End, m: Msg, f: End)
    requires Link(p, e) && e.h.done < |p.h.out| && m == p.h.out[e.h.done] && Is(KSend, m) && e.s.bufQ != []
    requires f.h.done == e.h.done + 1 && f.h.posted == e.h.posted && f.s.bufQ == e.s.bufQ[1..]
    requires f.h.recvLog == e.h.recvLog + [Recv(e.s.bufQ[0].id, |m.data|, m.data)]
    requires f.h.rcqTaken == e.h.rcqTaken && f.h.lostR == (e.h.lostR || |e.s.rcq| >= e.c.rcqRoom)
    requires f.s.rcq == Produced(e.s.rcq, e.c.rcqRoom, Cqe(OpRecv, e.s.bufQ[0].id, |m.data|))
    ensures RecvsOk(f, p.h.out)
  {
    hide PartPlaced, Pending, Pick, Flow, MsgsOk, Msn, Matched, RecvCqes;
    PickNext(p.h.out, e.h.done, KSend);
    var sends := Pick(p.h.out[..e.h.done], KSend);
    MatchedPush(e.h.posted, sends, m);
    CqesPush(e.h.recvLog, Recv(e.s.bufQ[0].id, |m.data|, m.data), OpRecv);
    if !f.h.lostR {
      var c := Cqe(OpRecv, e.s.bufQ[0].id, |m.data|);
      assert e.h.rcqTaken + (e.s.rcq + [c]) == e.h.rcqTaken + e.s.rcq + [c];
    }
  }

  lemma AfterSend(e: End, m: Msg, b: Bytes)
    requires EndOk(e) && MsgOk(m) && Is(KSend, m) && e.h.off + |b| == |m.data| && b == m.data[e.h.off..]
    requires (e.h.off > 0 ==> PartPlaced(e.s, m, e.h.off)) && ListsAre(e.s, m, e.h.off)
    ensures Taken(e, m, b).Just? <==> HasRoom(e.s, m, e.h.off, |b|)
    ensures Taken(e, m, b).Just? ==>
              var t := Taken(e, m, b).v;
              && Steady(t) && e.s.bufQ != []
              && t == Cleared(e.s).(mem := t.mem, bufQ := e.s.bufQ[1..],
                                    rcq := Produced(e.s.rcq, e.c.rcqRoom, Cqe(OpRecv, e.s.bufQ[0].id, |m.data|)),
                                    sinkMsn := Msn(e.s.sinkMsn + 1), recvMsn := Msn(e.s.recvMsn + 1))
              && Note(e, t, TheSeg(e, m, b))
                 == e.h.(pos := e.h.pos + 1, done := e.h.done + 1, off := 0,
                         recvLog := e.h.recvLog + [Recv(e.s.bufQ[0].id, |m.data|, m.data)],
                         lostR := e.h.lostR || |e.s.rcq| >= e.c.rcqRoom)
  {
    hide Receive, Msn, Total, HasRoom, Sound, Produced, NoteRecv, PartPlaced;
    ReceiveSend(e.c, e.s, m, e.h.off, b);
    ReceiveSteady(e.c, e.s, TheSeg(e, m, b));
    if Taken(e, m, b).Just? {
      var t := Taken(e, m, b).v;
      ProcessLastUntagged(e.c, e.s, m, e.h.off, b);
      NoteSend(e, t, Advance(e.h, true, |b|), m);
    }
  }

  lemma NoteSend(e: End, t: St, h: Hist, m: Msg)
    requires Is(KSend, m) && e.s.bufQ != [] && PartPlaced(e.s.(mem := t.mem), m, |m.data|)
    ensures NoteRecv(e, t, h, |m.data|)
         == h.(recvLog := h.recvLog + [Recv(e.s.bufQ[0].id, |m.data|, m.data)],
               lostR := h.lostR || |e.s.rcq| >= e.c.rcqRoom)
  {
    hide Window;
    WholeWindow(t.mem, e.s.bufQ[0].addr, m.data);
  }

  lemma PollSend(e: End, p: End, m: Msg, b: Bytes)
    requires EndOk(e) && Inv(e, p) && Next(e, p, m, b) && MsgOk(m) && Is(KSend, m) && e.h.off + |b| == |m.data|
    requires e.h.pos < |p.s.sent| && p.s.sent[e.h.pos + 1..] == Pending(p.c, p.h.out, e.h.done + 1, 0)
    ensures Taken(e, m, b).Just? <==> HasRoom(e.s, m, e.h.off, |b|)
    ensures Taken(e, m, b).Just? ==> Inv(Polled(e, Taken(e, m, b).v, m, b), p)
  {
    hide Receive, Pending, Pick, Flow, MsgsOk, Matched, RecvCqes, Msn, IssuedOk, ServedOk, ReadsDone, Note,
         OnlyReads, OneTagEach, HasRoom, Sound, ProgressOk, StreamOk, RecvsOk, Reads, Produced, PartPlaced, Taken, TheSeg, MsgOk;
    NextLists(e, p, m, b);
    AfterSend(e, m, b);
    ProgressFields(e, p);
    if Taken(e, m, b).Just? {
      var f := Polled(e, Taken(e, m, b).v, m, b);
      LastProgress(e, p, m, f);
      RecvsPush(e, p, m, f);
      ReadsBothSame(e, p, m, f);
      LinkSender(e, f, p);
    }
  }
}
