/** What becomes of the calls of rdmap_send and rdmap_rdma_write: one completion each, in
    order, and the messages that go out. */
module RdmapCalls {
  import opened MpaLayout
  import opened DdpSegments
  import opened DdpReassembly
  import opened CompletionQueue
  import opened Stags
  import opened Rdmap
  import opened RdmapWorld
  import opened RdmapRun
  import opened RdmapQueues
  import opened RdmapTheorems

  // ----- completions -----

  /** The completions on the send queue that are not of reads. */
  function NotReads(q: seq<Cqe>): seq<Cqe> {
    if q == [] then [] else NotReads(q[..|q| - 1]) + if q[|q| - 1].op != OpRdmaRead then [q[|q| - 1]] else []
  }

  lemma NotReadsPush(q: seq<Cqe>, c: Cqe)
    ensures NotReads(q + [c]) == NotReads(q) + if c.op != OpRdmaRead then [c] else []
  {
    assert (q + [c])[..|q|] == q;
  }

  /** The completion k reports call k, with the number of bytes that were asked for. */
  predicate Reports(c: Cqe, call: Accepted) {
    match call
    case SendCall(id, data) => c.op == OpSend && c.id == id && c.len == |data|
    case WriteCall(id, data, _, _) => c.op == OpRdmaWrite && c.id == id && c.len == |data|
  }

  predicate CallsReported(e: End) {
    var q := NotReads(e.h.scqTaken + e.s.scq);
    && |q| == |e.h.calls|
    && forall k :: 0 <= k < |q| ==> Reports(q[k], e.h.calls[k])
  }

  lemma {:induction false} ReadsAddNone(taken: seq<Cqe>, scq: seq<Cqe>, room: nat, done: seq<Rwr>)
    ensures NotReads(taken + ProduceAll(scq, room, done)) == NotReads(taken + scq)
    decreases done
  {
    hide NotReads;
    if done != [] {
      var c := ReadCqe(done[0]);
      assert taken + (scq + [c]) == taken + scq + [c];
      NotReadsPush(taken + scq, c);
      assert NotReads(taken + scq) + [] == NotReads(taken + scq);
      ReadsAddNone(taken, Produced(scq, room, c), room, done[1..]);
    }
  }

  lemma PollReported(e: End, g: Segment)
    requires EndOk(e) && CallsReported(e)
    ensures var r := Receive(e.c, e.s, g); r.Just? ==> CallsReported(End(e.c, r.v, Note(e, r.v, g)))
  {
    hide Receive, Steady, ConfigOk, Total, Window, Finished, Mark, Ready, DecodeReq, ProduceAll, NotReads, Reports;
    if Receive(e.c, e.s, g).Just? {
      ReceiveQueues(e.c, e.s, g);
      if EndsRead(g) {
        ReadEnds(e.c, e.s, g);
        var q := Mark(e.s.rwrq, g.stag, Total(e.s.outstTag, Arrival(TagKey(g.stag), |g.data|, g.last)));
        ReadsAddNone(e.h.scqTaken, e.s.scq, e.c.scqRoom, q[..Ready(q)]);
      }
    }
  }

  lemma CallReported(e: End, f: End, c: Cqe, call: Accepted)
    requires CallsReported(e) && Reports(c, call)
    requires f.h.scqTaken == e.h.scqTaken && f.s.scq == e.s.scq + [c] && f.h.calls == e.h.calls + [call]
    ensures CallsReported(f)
  {
    hide NotReads;
    assert e.h.scqTaken + (e.s.scq + [c]) == e.h.scqTaken + e.s.scq + [c];
    NotReadsPush(e.h.scqTaken + e.s.scq, c);
  }

  lemma ActReported(e: End, sent: seq<Segment>, a: Action)
    requires CallsReported(e)
    ensures Act(e, sent, a).Just? ==> CallsReported(Act(e, sent, a).v)
  {
    hide Legal, EndOk, Note, Receive, Segments, EncodeReq, Put, Msn, CallsReported, NotReads;
    match a {
      case DoSendAct(data, id) =>
        if Act(e, sent, a).Just? && |e.s.scq| < e.c.scqRoom {
          CallReported(e, Act(e, sent, a).v, Cqe(OpSend, id, |data|), SendCall(id, data));
        }
      case DoWriteAct(data, stag, to, id) =>
        if Act(e, sent, a).Just? && |e.s.scq| < e.c.scqRoom {
          CallReported(e, Act(e, sent, a).v, Cqe(OpRdmaWrite, id, |data|), WriteCall(id, data, stag, to));
        }
      case Poll =>
        if EndOk(e) && e.h.pos < |sent| {
          PollReported(e, sent[e.h.pos]);
        }
      case TakeSend =>
        if e.s.scq != [] {
          TakeOne(e.h.scqTaken, e.s.scq);
        }
      case _ =>
    }
    if Act(e, sent, a).Just? {
      var f := Act(e, sent, a).v;
      if f.h.scqTaken + f.s.scq == e.h.scqTaken + e.s.scq && f.h.calls == e.h.calls {
        SameReported(e, f);
      }
    }
  }

  lemma SameReported(e: End, f: End)
    requires CallsReported(e) && f.h.scqTaken + f.s.scq == e.h.scqTaken + e.s.scq && f.h.calls == e.h.calls
    ensures CallsReported(f)
  {
  }

  // ----- messages -----

  /** The messages that are neither requests nor responses. */
  function OwnMsgs(out: seq<Msg>): seq<Msg> {
    if out == [] then []
    else
      var m := out[|out| - 1];
      OwnMsgs(out[..|out| - 1]) + if m.d.op == Send || m.d.op == RdmaWrite then [m] else []
  }

  /** The calls that put something out: an RDMA Write of no bytes does not. */
  function Loud(calls: seq<Accepted>): seq<Accepted> {
    if calls == [] then []
    else
      var c := calls[|calls| - 1];
      Loud(calls[..|calls| - 1]) + if c.WriteCall? && c.data == [] then [] else [c]
  }

  predicate Carries(m: Msg, call: Accepted) {
    match call
    case SendCall(_, data) => m.d.ToQueue? && m.d.qn == 0 && m.d.op == Send && m.data == data
    case WriteCall(_, data, stag, to) => m == Msg(ToTag(stag, to, RdmaWrite), data)
  }

  predicate CallsSent(h: Hist) {
    var out, calls := OwnMsgs(h.out), Loud(h.calls);
    |out| == |calls| && forall k :: 0 <= k < |out| ==> Carries(out[k], calls[k])
  }

  lemma OwnPush(out: seq<Msg>, m: Msg)
    ensures OwnMsgs(out + [m]) == OwnMsgs(out) + if m.d.op == Send || m.d.op == RdmaWrite then [m] else []
  {
    assert (out + [m])[..|out|] == out;
  }

  lemma LoudPush(calls: seq<Accepted>, c: Accepted)
    ensures Loud(calls + [c]) == Loud(calls) + if c.WriteCall? && c.data == [] then [] else [c]
  {
    assert (calls + [c])[..|calls|] == calls;
  }

  lemma OneSent(h: Hist, k: Hist, m: Msg, c: Accepted)
    requires CallsSent(h) && k.out == h.out + [m] && k.calls == h.calls + [c] && Carries(m, c)
    requires c.WriteCall? ==> c.data != []
    ensures CallsSent(k)
  {
    hide OwnMsgs, Loud;
    OwnPush(h.out, m);
    LoudPush(h.calls, c);
  }

  lemma OtherSent(h: Hist, k: Hist, m: Msg)
    requires CallsSent(h) && k.out == h.out + [m] && k.calls == h.calls && m.d.op != Send && m.d.op != RdmaWrite
    ensures CallsSent(k)
  {
    hide Loud;
    OwnPush(h.out, m);
    assert OwnMsgs(h.out) + [] == OwnMsgs(h.out);
  }

  lemma NoneSent(h: Hist, k: Hist, c: Accepted)
    requires CallsSent(h) && k.out == h.out && k.calls == h.calls + [c] && c.WriteCall? && c.data == []
    ensures CallsSent(k)
  {
    LoudPush(h.calls, c);
    assert Loud(h.calls) + [] == Loud(h.calls);
  }

  lemma NoteSent(e: End, t: St, g: Segment)
    requires CallsSent(e.h)
    ensures CallsSent(Note(e, t, g))
  {
    hide CallsSent, Mark, Ready, Finished, Window, DecodeReq, Total;
    var k := Note(e, t, g);
    if k.out == e.h.out && k.calls == e.h.calls {
      StillSent(e.h, k);
    } else {
      var r := DecodeReq(g.data);
      var b := Window(e.s.mem, r.srcTo, r.size);
      OtherSent(e.h, k, Msg(ToTag(r.sinkStag, r.sinkTo, RdmaReadResp), b));
    }
  }

  lemma StillSent(h: Hist, k: Hist)
    requires CallsSent(h) && k.out == h.out && k.calls == h.calls
    ensures CallsSent(k)
  {
  }

  lemma ActSent(e: End, sent: seq<Segment>, a: Action)
    requires CallsSent(e.h)
    ensures Act(e, sent, a).Just? ==> CallsSent(Act(e, sent, a).v.h)
  {
    hide Legal, EndOk, Note, Receive, Segments, EncodeReq, Put, Msn, CallsSent;
    if Act(e, sent, a).Just? {
      var k := Act(e, sent, a).v.h;
      match a {
        case DoSendAct(data, id) =>
          if |e.s.scq| < e.c.scqRoom {
            OneSent(e.h, k, Msg(ToQueue(SEND_Q, e.s.sendMsn, Send), data), SendCall(id, data));
          }
        case DoWriteAct(data, stag, to, id) =>
          if |e.s.scq| < e.c.scqRoom {
            if data == [] {
              assert e.h.out + [] == e.h.out;
              NoneSent(e.h, k, WriteCall(id, data, stag, to));
            } else {
              OneSent(e.h, k, Msg(ToTag(stag, to, RdmaWrite), data), WriteCall(id, data, stag, to));
            }
          }
        case DoReadAct(r, id) =>
          if |e.s.scq| < e.c.scqRoom {
            OtherSent(e.h, k, Msg(ToQueue(RDMAREQ_Q, e.s.sendMsn, RdmaReadReq), EncodeReq(r)));
          }
        case Poll =>
          if EndOk(e) && e.h.pos < |sent| {
            PollSent(e, sent[e.h.pos]);
          }
        case _ =>
      }
      if k.out == e.h.out && k.calls == e.h.calls {
        StillSent(e.h, k);
      }
    }
  }

  lemma PollSent(e: End, g: Segment)
    requires CallsSent(e.h) && EndOk(e)
    ensures var r := Receive(e.c, e.s, g); r.Just? ==> CallsSent(Note(e, r.v, g))
  {
    hide CallsSent, Receive, Note;
    if Receive(e.c, e.s, g).Just? {
      NoteSent(e, Receive(e.c, e.s, g).v, g);
    }
  }

  // ----- runs -----

  predicate Both(w: World) {
    CallsReported(w.a) && CallsSent(w.a.h) && CallsReported(w.b) && CallsSent(w.b.h)
  }

  lemma {:induction false} RunCalls(w: World, steps: seq<Step>)
    requires Both(w)
    ensures Run(w, steps).Just? ==> Both(Run(w, steps).v)
    decreases steps
  {
    hide Act, CallsReported, CallsSent;
    if steps != [] {
      var s := steps[0];
      if s.atA {
        ActReported(w.a, w.b.s.sent, s.act);
        ActSent(w.a, w.b.s.sent, s.act);
      } else {
        ActReported(w.b, w.a.s.sent, s.act);
        ActSent(w.b, w.a.s.sent, s.act);
      }
      if Take(w, s).Just? {
        RunCalls(Take(w, s).v, steps[1..]);
      }
    }
  }

  /** In every run, at both ends: the completions of sends and writes, consumed and waiting,
      are one for each accepted call, in order, with its id and length; and its messages
      are, in order, what those calls asked for. */
  lemma CallsTheorem(ca: Config, ma: Bytes, cb: Config, mb: Bytes, steps: seq<Step>, w: World)
    requires Reached(ca, ma, cb, mb, steps, w)
    ensures CallsReported(w.a) && CallsSent(w.a.h) && CallsReported(w.b) && CallsSent(w.b.h)
  {
    hide Run, RunLegal, GoodConfig;
    NothingCalled(ca, ma);
    NothingCalled(cb, mb);
    RunCalls(World(Start(ca, ma), Start(cb, mb)), steps);
  }

  lemma NothingCalled(c: Config, mem: Bytes)
    ensures CallsReported(Start(c, mem)) && CallsSent(Start(c, mem).h)
  {
  }
}
