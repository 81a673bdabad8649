/** What the two completion queues hold over a run: a completion that finds its queue full
    is dropped, and a user who keeps an eye on the queues never has one dropped. */
module RdmapQueues {
  import opened MpaLayout
  import opened DdpSegments
  import opened DdpReassembly
  import opened CompletionQueue
  import opened Stags
  import opened Rdmap
  import opened RdmapWorld
  import opened RdmapRun
  import KernelReads

  // ----- counting -----

  /** As many receive completions were consumed or wait as there were, or fewer if and only
      if one was lost. */
  predicate RecvCount(e: End) {
    && |e.h.rcqTaken| + |e.s.rcq| <= |e.h.recvLog|
    && (e.h.lostR <==> |e.h.rcqTaken| + |e.s.rcq| < |e.h.recvLog|)
  }

  predicate ReadCount(e: End) {
    && |e.s.scq| <= e.c.scqRoom
    && |OnlyReads(e.h.scqTaken + e.s.scq)| <= |e.h.readLog|
    && (e.h.lostS <==> |OnlyReads(e.h.scqTaken + e.s.scq)| < |e.h.readLog|)
  }

  lemma OneOther(taken: seq<Cqe>, scq: seq<Cqe>, x: Cqe)
    requires x.op != OpRdmaRead
    ensures OnlyReads(taken + (scq + [x])) == OnlyReads(taken + scq)
  {
    var s := taken + (scq + [x]);
    assert s[..|s| - 1] == taken + scq;
  }

  lemma OneMore(taken: seq<Cqe>, scq: seq<Cqe>, w: Rwr)
    ensures |OnlyReads(taken + (scq + [ReadCqe(w)]))| == |OnlyReads(taken + scq)| + 1
  {
    var s := taken + (scq + [ReadCqe(w)]);
    assert s[..|s| - 1] == taken + scq;
  }

  /** The loop adds completions of reads, as many as there is room for. */
  lemma {:induction false} ReadsProduced(taken: seq<Cqe>, scq: seq<Cqe>, room: nat, done: seq<Rwr>)
    requires |scq| <= room
    ensures var p := ProduceAll(scq, room, done);
            && |p| == (if |scq| + |done| <= room then |scq| + |done| else room)
            && |OnlyReads(taken + p)| == |OnlyReads(taken + scq)| + |p| - |scq|
    decreases done
  {
    hide OnlyReads, ReadCqe;
    if done != [] {
      OneMore(taken, scq, done[0]);
      ReadsProduced(taken, Produced(scq, room, ReadCqe(done[0])), room, done[1..]);
    }
  }

  lemma {:induction false} FinishedLength(ws: seq<Rwr>, issues: seq<Issue>, mem: Bytes)
    ensures |Finished(ws, issues, mem)| == if |ws| <= |issues| then |ws| else |issues|
    decreases ws
  {
    if ws != [] && issues != [] {
      FinishedLength(ws[1..], issues[1..], mem);
    }
  }

  // ----- what one segment does to the queues -----

  /** Whether the segment completes a receive. */
  predicate EndsSend(g: Segment) { g.Untagged? && g.last && g.qn == SEND_Q }

  /** Whether it completes the answer to a read. */
  predicate EndsRead(g: Segment) { g.Tagged? && g.last && g.op == RdmaReadResp }

  lemma ReceiveQueues(c: Config, s: St, g: Segment)
    requires ConfigOk(c) && Steady(s) && Receive(c, s, g).Just?
    ensures var t := Receive(c, s, g).v;
            && (EndsSend(g) ==> s.bufQ != [] && t.bufQ == s.bufQ[1..]
                                && exists x :: t.rcq == Produced(s.rcq, c.rcqRoom, x))
            && (!EndsSend(g) ==> t.bufQ == s.bufQ && t.rcq == s.rcq)
            && (!EndsRead(g) ==> t.rwrq == s.rwrq && t.scq == s.scq)
  {
    hide Sound, Grants, Segments, DecodeReq, Put, Arrive, Total, Mark, Ready, ProduceAll, Produced, Msn;
    if EndsSend(g) {
      SendEnds(c, s, g);
    }
  }

  lemma SendEnds(c: Config, s: St, g: Segment)
    requires ConfigOk(c) && Steady(s) && Receive(c, s, g).Just? && EndsSend(g)
    ensures s.bufQ != [] && Receive(c, s, g).v.bufQ == s.bufQ[1..]
    ensures Receive(c, s, g).v.rcq
         == Produced(s.rcq, c.rcqRoom, Cqe(SinkOp(g.op), s.bufQ[0].id,
                                           Total(s.outstUntag, Arrival(MsgKey(g.qn, g.msn), |g.data|, g.last))))
  {
    hide Sound, Put, Arrive, Total, Produced, Msn;
  }

  lemma ReadEnds(c: Config, s: St, g: Segment)
    requires ConfigOk(c) && Steady(s) && Receive(c, s, g).Just? && EndsRead(g)
    ensures var q := Mark(s.rwrq, g.stag, Total(s.outstTag, Arrival(TagKey(g.stag), |g.data|, g.last)));
            var t := Receive(c, s, g).v;
            t.rwrq == q[Ready(q)..] && t.scq == ProduceAll(s.scq, c.scqRoom, q[..Ready(q)])
  {
    hide Sound, Grants, Put, Arrive, Total, Mark, Ready, ProduceAll;
  }

  // ----- every step -----

  lemma PollRecvCount(e: End, g: Segment)
    requires EndOk(e) && RecvCount(e) && Receive(e.c, e.s, g).Just?
    ensures RecvCount(End(e.c, Receive(e.c, e.s, g).v, Note(e, Receive(e.c, e.s, g).v, g)))
  {
    hide Receive, Steady, ConfigOk, Total, Window, Finished, Mark, Ready, DecodeReq;
    ReceiveQueues(e.c, e.s, g);
  }

  lemma PollReadCount(e: End, g: Segment)
    requires EndOk(e) && ReadCount(e) && Receive(e.c, e.s, g).Just? && |e.s.rwrq| + |e.h.readLog| == |e.h.issued|
    ensures ReadCount(End(e.c, Receive(e.c, e.s, g).v, Note(e, Receive(e.c, e.s, g).v, g)))
  {
    hide Receive, Steady, ConfigOk, Total, Window, Finished, Mark, Ready, DecodeReq, OnlyReads, ProduceAll;
    ReceiveQueues(e.c, e.s, g);
    if EndsRead(g) {
      ReadEnds(e.c, e.s, g);
      var t := Receive(e.c, e.s, g).v;
      var q := Mark(e.s.rwrq, g.stag, Total(e.s.outstTag, Arrival(TagKey(g.stag), |g.data|, g.last)));
      ReadsProduced(e.h.scqTaken, e.s.scq, e.c.scqRoom, q[..Ready(q)]);
      FinishedLength(q[..Ready(q)], From(e.h.issued, |e.h.readLog|), t.mem);
    }
  }

  lemma PollCounts(e: End, g: Segment)
    requires EndOk(e) && RecvCount(e) && ReadCount(e) && |e.s.rwrq| + |e.h.readLog| == |e.h.issued|
    ensures var r := Receive(e.c, e.s, g);
            r.Just? ==> RecvCount(End(e.c, r.v, Note(e, r.v, g))) && ReadCount(End(e.c, r.v, Note(e, r.v, g)))
  {
    hide Receive, Note, RecvCount, ReadCount;
    if Receive(e.c, e.s, g).Just? {
      PollRecvCount(e, g);
      PollReadCount(e, g);
    }
  }

  lemma ReadsOpen(e: End, p: End)
    requires Inv(e, p)
    ensures |e.s.rwrq| + |e.h.readLog| == |e.h.issued|
  {
    hide Pick, IssuedOk, OnlyReads, RecvCqes, OneTagEach, ProgressOk, StreamOk, RecvsOk, SenderOk, Sound, Waiting;
  }

  lemma TakeOne(taken: seq<Cqe>, q: seq<Cqe>)
    requires q != []
    ensures taken + [q[0]] + q[1..] == taken + q
  {
  }

  lemma ActCounts(e: End, p: End, a: Action)
    requires EndOk(e) && Legal(e, a) && Inv(e, p) && RecvCount(e) && ReadCount(e)
    ensures Act(e, p.s.sent, a).Just? ==> RecvCount(Act(e, p.s.sent, a).v) && ReadCount(Act(e, p.s.sent, a).v)
  {
    hide Inv, Legal, EndOk, Steady, Note, Receive, OnlyReads, Segments, EncodeReq, Put, Msn;
    ReadsOpen(e, p);
    match a {
      case DoSendAct(data, id) => OneOther(e.h.scqTaken, e.s.scq, Cqe(OpSend, id, |data|));
      case DoWriteAct(data, stag, to, id) => OneOther(e.h.scqTaken, e.s.scq, Cqe(OpRdmaWrite, id, |data|));
      case Poll =>
        if e.h.pos < |p.s.sent| {
          PollCounts(e, p.s.sent[e.h.pos]);
        }
      case TakeSend =>
        if e.s.scq != [] {
          TakeOne(e.h.scqTaken, e.s.scq);
        }
      case _ =>
    }
  }

  // ----- users who leave room -----

  /** The user asks for nothing that could complete into a full queue. */
  predicate Careful(e: End, a: Action) {
    match a
    case Post(_) => |e.s.bufQ| + |e.s.rcq| < e.c.rcqRoom
    case DoSendAct(_, _) => |e.s.rwrq| + |e.s.scq| < e.c.scqRoom
    case DoWriteAct(_, _, _, _) => |e.s.rwrq| + |e.s.scq| < e.c.scqRoom
    case DoReadAct(_, _) => |e.s.rwrq| + |e.s.scq| < e.c.scqRoom
    case _ => true
  }

  predicate LeavesRoom(e: End) {
    && !e.h.lostR && |e.s.bufQ| + |e.s.rcq| <= e.c.rcqRoom
    && !e.h.lostS && |e.s.rwrq| + |e.s.scq| <= e.c.scqRoom
  }

  lemma PollLeavesRoom(e: End, g: Segment)
    requires EndOk(e) && LeavesRoom(e)
    ensures var r := Receive(e.c, e.s, g); r.Just? ==> LeavesRoom(End(e.c, r.v, Note(e, r.v, g)))
  {
    hide Receive, Steady, ConfigOk, Total, Window, Finished, Mark, Ready, DecodeReq, ProduceAll;
    if Receive(e.c, e.s, g).Just? {
      ReceiveQueues(e.c, e.s, g);
    }
    if Receive(e.c, e.s, g).Just? && EndsRead(g) {
      ReadEnds(e.c, e.s, g);
      var q := Mark(e.s.rwrq, g.stag, Total(e.s.outstTag, Arrival(TagKey(g.stag), |g.data|, g.last)));
      KernelReads.ProduceFull(e.s.scq, e.c.scqRoom, q[..Ready(q)]);
    }
  }

  lemma ActLeavesRoom(e: End, sent: seq<Segment>, a: Action)
    requires LeavesRoom(e) && Careful(e, a)
    ensures Act(e, sent, a).Just? ==> LeavesRoom(Act(e, sent, a).v)
  {
    hide Legal, EndOk, Note, Receive, Segments, EncodeReq, Put, Msn;
    if a == Poll && EndOk(e) && e.h.pos < |sent| {
      PollLeavesRoom(e, sent[e.h.pos]);
    }
  }

  // ----- runs -----

  predicate Counted(w: World) { RecvCount(w.a) && ReadCount(w.a) && RecvCount(w.b) && ReadCount(w.b) }

  lemma TakeCounted(w: World, s: Step)
    requires WorldOk(w) && StepLegal(w, s) && Counted(w)
    ensures Take(w, s).Just? ==> Counted(Take(w, s).v)
  {
    hide Inv, Legal, Act, EndOk, RecvCount, ReadCount;
    InvBothWays(w.a, w.b);
    if s.atA {
      ActCounts(w.a, w.b, s.act);
    } else {
      ActCounts(w.b, w.a, s.act);
    }
  }

  lemma {:induction false} RunCounted(w: World, steps: seq<Step>)
    requires WorldOk(w) && RunLegal(w, steps) && Counted(w)
    ensures Run(w, steps).Just? ==> Counted(Run(w, steps).v)
    decreases steps
  {
    hide WorldOk, StepLegal, Take, Counted;
    if steps != [] {
      TakeKeeps(w, steps[0]);
      TakeCounted(w, steps[0]);
      if Take(w, steps[0]).Just? {
        RunCounted(Take(w, steps[0]).v, steps[1..]);
      }
    }
  }

  function EndAt(w: World, atA: bool): End { if atA then w.a else w.b }

  /** Every call that this end makes in the run leaves room. */
  predicate RunCareful(w: World, steps: seq<Step>, atA: bool)
    decreases steps
  {
    steps == []
    || ((steps[0].atA == atA ==> Careful(EndAt(w, atA), steps[0].act))
        && (Take(w, steps[0]).Nothing? || RunCareful(Take(w, steps[0]).v, steps[1..], atA)))
  }

  lemma {:induction false} RunLeavesRoom(w: World, steps: seq<Step>, atA: bool)
    requires RunCareful(w, steps, atA) && LeavesRoom(EndAt(w, atA))
    ensures Run(w, steps).Just? ==> LeavesRoom(EndAt(Run(w, steps).v, atA))
    decreases steps
  {
    hide Act, LeavesRoom, Careful;
    if steps != [] {
      var s := steps[0];
      if s.atA == atA {
        ActLeavesRoom(EndAt(w, atA), EndAt(w, !atA).s.sent, s.act);
      }
      if Take(w, s).Just? {
        RunLeavesRoom(Take(w, s).v, steps[1..], atA);
      }
    }
  }
}
