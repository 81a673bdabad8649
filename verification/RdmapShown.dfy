/** What the logs of a run stand for in memory: a receive or a read that completes leaves its
    bytes in its buffer, and a read is served with the bytes that memory then holds. */
module RdmapShown {
  import opened MpaLayout
  import opened DdpSegments
  import opened DdpReassembly
  import opened CompletionQueue
  import opened Stags
  import opened Rdmap
  import opened RdmapWorld
  import opened RdmapPoll
  import opened RdmapReads
  import opened RdmapRun
  import opened RdmapQueues
  import opened RdmapTheorems

  // ----- from one state to the next -----

  /** The receive that completes has the peer's message in its buffer, from the start on. */
  predicate RecvShown(e: End, f: End, p: End) {
    |f.h.recvLog| > |e.h.recvLog| ==>
      var k, sends := |e.h.recvLog|, Pick(p.h.out, KSend);
      && |f.h.recvLog| == k + 1 && k < |e.h.posted| && k < |sends|
      && var w, data := e.h.posted[k], sends[k].data;
      w.addr + |data| <= |f.s.mem| && f.s.mem[w.addr..w.addr + |data|] == data
  }

  /** Each read that completes has the bytes it was served with at its sink. */
  predicate ReadsShown(e: End, f: End, p: End) {
    && |e.h.readLog| <= |f.h.readLog| <= |p.h.served| && |f.h.readLog| <= |e.h.issued|
    && forall k :: |e.h.readLog| <= k < |f.h.readLog| ==>
         var r := e.h.issued[k].req;
         r.sinkTo + r.size <= |f.s.mem| && f.s.mem[r.sinkTo..r.sinkTo + r.size] == p.h.served[k]
  }

  /** The read that is served is the peer's next one, with the bytes it asks for. */
  predicate ServedShown(e: End, f: End, p: End) {
    |f.h.served| > |e.h.served| ==>
      var k := |e.h.served|;
      && |f.h.served| == k + 1 && k < |p.h.issued|
      && var r := p.h.issued[k].req;
      r.srcTo + r.size <= |e.s.mem| && f.h.served[k] == e.s.mem[r.srcTo..r.srcTo + r.size]
  }

  // ----- what a poll notes -----

  lemma NotedRecv(e: End, t: St, g: Segment)
    ensures var h := Note(e, t, g);
            h.recvLog == e.h.recvLog
            || (e.s.bufQ != [] && exists len ::
                  h.recvLog == e.h.recvLog + [Recv(e.s.bufQ[0].id, len, Window(t.mem, e.s.bufQ[0].addr, len))])
  {
    hide Window, Finished, Mark, Ready, DecodeReq, Total;
  }

  lemma NotedServed(e: End, t: St, g: Segment)
    ensures var h := Note(e, t, g);
            h.served == e.h.served
            || (g.Untagged? && g.last && g.qn != SEND_Q && |g.data| == REQ_SZ
                && var r := DecodeReq(g.data); h.served == e.h.served + [Window(e.s.mem, r.srcTo, r.size)])
  {
    hide Window, Finished, Mark, Ready, DecodeReq, Total;
  }

  lemma {:induction false} FinishedAt(ws: seq<Rwr>, issues: seq<Issue>, mem: Bytes, j: nat)
    requires j < |Finished(ws, issues, mem)|
    ensures j < |ws| && j < |issues|
    ensures Finished(ws, issues, mem)[j] == Recv(ws[j].id, ws[j].len, Window(mem, issues[j].req.sinkTo, ws[j].len))
    decreases ws
  {
    hide Window;
    if j > 0 {
      FinishedAt(ws[1..], issues[1..], mem, j - 1);
    }
  }

  lemma NotedRead(e: End, t: St, g: Segment, k: nat)
    requires |e.h.readLog| <= |e.h.issued|
    requires |e.h.readLog| <= k < |Note(e, t, g).readLog|
    ensures k < |e.h.issued|
    ensures var r := Note(e, t, g).readLog[k]; r.bytes == Window(t.mem, e.h.issued[k].req.sinkTo, r.len)
  {
    hide Window, Finished, Mark, Ready, DecodeReq, Total;
    var n := |e.h.readLog|;
    var ws: seq<Rwr> :| Note(e, t, g).readLog == e.h.readLog + Finished(ws, e.h.issued[n..], t.mem);
    FinishedAt(ws, e.h.issued[n..], t.mem, k - n);
  }

  lemma WindowIs(mem: Bytes, at: nat, len: nat, data: Bytes)
    requires Window(mem, at, len) == data && |data| == len && (len > 0 || at <= |mem|)
    ensures at + len <= |mem| && mem[at..at + len] == data
  {
  }

  // ----- one step -----

  lemma RecvStep(e: End, f: End, p: End, act: Action)
    requires EndOk(e) && Act(e, p.s.sent, act) == Just(f) && SendsInOrder(p, e) && SendsInOrder(p, f)
    ensures RecvShown(e, f, p)
  {
    hide Note, Receive, Legal, Pick, EncodeReq, Segments, Msn, Put, Window, Steady;
    if |f.h.recvLog| > |e.h.recvLog| {
      assert act == Poll && e.h.pos < |p.s.sent|;
      NotedRecv(e, f.s, p.s.sent[e.h.pos]);
      var k, sends := |e.h.recvLog|, Pick(p.h.out, KSend);
      var w := e.s.bufQ[0];
      assert w == e.h.posted[k] && f.h.posted == e.h.posted by { PollPosted(e, f.s, p.s.sent[e.h.pos]); }
      OldestInside(e.s);
      ReceiveSize(e.c, e.s, p.s.sent[e.h.pos]);
      WindowIs(f.s.mem, w.addr, |sends[k].data|, sends[k].data);
    }
  }

  lemma OldestInside(s: St)
    requires Steady(s) && s.bufQ != []
    ensures s.bufQ[0].addr + s.bufQ[0].len <= |s.mem|
  {
    assert s.bufQ[0] in s.bufQ;
  }

  lemma PollPosted(e: End, t: St, g: Segment)
    ensures Note(e, t, g).posted == e.h.posted && Note(e, t, g).issued == e.h.issued
  {
    hide Window, Finished, Mark, Ready, DecodeReq, Total;
  }

  lemma ReceiveSize(c: Config, s: St, g: Segment)
    requires ConfigOk(c) && Steady(s)
    ensures Receive(c, s, g).Just? ==> |Receive(c, s, g).v.mem| == |s.mem|
  {
    hide DecodeReq, Arrive, Total, Mark, Ready, ProduceAll, Produced, Msn, Segments, TagGrants;
  }

  lemma ReadSizes(e: End, p: End)
    requires Inv(e, p)
    ensures forall k :: 0 <= k < |e.h.issued| ==> e.h.issued[k].req.size > 0
    ensures |p.h.served| <= |e.h.issued| && forall k :: 0 <= k < |p.h.served| ==> |p.h.served[k]| == e.h.issued[k].req.size
  {
    hide Pick, Link, Steady, OneTagEach, OnlyReads, RecvCqes, ReadsDone;
    LinksDone(e, p);
  }

  lemma LinksDone(e: End, p: End)
    requires Inv(e, p)
    ensures e.h.done <= |p.h.out| && p.h.done <= |e.h.out|
  {
    hide Reads, Steady;
    LinkDone(e, p);
    LinkDone(p, e);
  }

  lemma ReadStep(e: End, f: End, p: End, act: Action)
    requires EndOk(e) && Act(e, p.s.sent, act) == Just(f) && Inv(f, p)
    requires ReadsInOrder(e, p) && ReadsInOrder(f, p)
    ensures ReadsShown(e, f, p)
  {
    hide Note, Receive, Legal, Pick, EncodeReq, Segments, Msn, Put, Window, EndOk, Inv;
    ReadSizes(f, p);
    NotesMore(e, f, p, act);
    forall k | |e.h.readLog| <= k < |f.h.readLog|
      ensures var r := e.h.issued[k].req;
              r.sinkTo + r.size <= |f.s.mem| && f.s.mem[r.sinkTo..r.sinkTo + r.size] == p.h.served[k]
    {
      assert act == Poll && e.h.pos < |p.s.sent|;
      NotedRead(e, f.s, p.s.sent[e.h.pos], k);
      WindowIs(f.s.mem, e.h.issued[k].req.sinkTo, e.h.issued[k].req.size, p.h.served[k]);
    }
  }

  /** The logs never get shorter, and calls that are accepted only add to the issued reads. */
  lemma NotesMore(e: End, f: End, p: End, act: Action)
    requires Act(e, p.s.sent, act) == Just(f)
    ensures |e.h.readLog| <= |f.h.readLog| && e.h.issued <= f.h.issued
    ensures act == Poll ==> f.h.issued == e.h.issued
  {
    hide Note, Receive, Legal, EncodeReq, Segments, Msn, Put, EndOk;
    if act == Poll && e.h.pos < |p.s.sent| {
      PollPosted(e, f.s, p.s.sent[e.h.pos]);
      NotesRead(e, f.s, p.s.sent[e.h.pos]);
    }
  }

  lemma NotesRead(e: End, t: St, g: Segment)
    ensures |e.h.readLog| <= |Note(e, t, g).readLog|
  {
    hide Window, Finished, Mark, Ready, DecodeReq, Total;
  }

  lemma ServedStep(e: End, f: End, p: End, act: Action)
    requires EndOk(e) && Act(e, p.s.sent, act) == Just(f) && Inv(e, p) && Inv(f, p)
    ensures ServedShown(e, f, p)
  {
    hide Note, Receive, Legal, Pick, EncodeReq, Segments, Msn, Put, Window, EndOk, DecodeReq, Inv, Next, Is, Asked;
    if |f.h.served| > |e.h.served| {
      assert act == Poll && e.h.pos < |p.s.sent|;
      var g := p.s.sent[e.h.pos];
      NotedServed(e, f.s, g);
      var k := NextAsked(e, p);
      FromInv(f, p);
      ReadSizes(p, f);
      var r := p.h.issued[k].req;
      WindowIs(e.s.mem, r.srcTo, r.size, f.h.served[k]);
    }
  }

  lemma FromInv(e: End, p: End)
    requires Inv(e, p)
    ensures Inv(p, e)
  {
    hide Inv;
    InvBothWays(e, p);
  }

  /** A whole request that is read next is that of the first read not yet served. */
  lemma NextAsked(e: End, p: End) returns (k: nat)
    requires Inv(e, p) && e.h.pos < |p.s.sent|
    requires var g := p.s.sent[e.h.pos]; g.Untagged? && g.last && g.qn != SEND_Q
    ensures k == |e.h.served| < |p.h.issued|
    ensures |p.s.sent[e.h.pos].data| == REQ_SZ && DecodeReq(p.s.sent[e.h.pos].data) == p.h.issued[k].req
  {
    hide Pending, Pick, Reads, DecodeReq, Link, Steady, Asked;
    LinksDone(e, p);
    ServedCount(e, p);
    var m, b := ReadNext(e, p);
    RequestIs(e, p, m);
    k := Asked(e, p);
  }

  lemma ServedCount(e: End, p: End)
    requires Inv(e, p)
    ensures e.h.done <= |p.h.out| && Asked(e, p) == |e.h.served|
  {
    hide Pick, Link, Steady, OneTagEach, OnlyReads, RecvCqes, ReadsDone, IssuedOk;
    LinksDone(e, p);
  }

  // ----- runs -----

  lemma {:induction false} OneMore(w: World, steps: seq<Step>, s: Step)
    requires RunLegal(w, steps) && Run(w, steps).Just? && StepLegal(Run(w, steps).v, s)
    ensures RunLegal(w, steps + [s]) && Run(w, steps + [s]) == Take(Run(w, steps).v, s)
    decreases steps
  {
    hide Take, StepLegal;
    if steps == [] {
      assert [s][1..] == [] && [] + [s] == [s];
    } else {
      assert (steps + [s])[1..] == steps[1..] + [s];
      OneMore(Take(w, steps[0]).v, steps[1..], s);
    }
  }

  /** At every step of every run. */
  lemma StepShown(ca: Config, ma: Bytes, cb: Config, mb: Bytes, steps: seq<Step>, w: World, s: Step, v: World)
    requires Reached(ca, ma, cb, mb, steps, w) && StepLegal(w, s) && Take(w, s) == Just(v)
    ensures var e, f, p := EndAt(w, s.atA), EndAt(v, s.atA), EndAt(w, !s.atA);
            && EndAt(v, !s.atA) == p
            && RecvShown(e, f, p) && ReadsShown(e, f, p) && ServedShown(e, f, p)
  {
    hide Run, RunLegal, StepLegal, Act, SendsInOrder, ReadsInOrder, RecvShown, ReadsShown, ServedShown, Inv, EndOk,
         GoodConfig, RecvQueueExact, ReadQueueExact, MsnsExact;
    OneMore(World(Start(ca, ma), Start(cb, mb)), steps, s);
    assert Reached(ca, ma, cb, mb, steps + [s], v);
    ReachedOk(ca, ma, cb, mb, steps, w);
    ReachedOk(ca, ma, cb, mb, steps + [s], v);
    SendsTheorem(ca, ma, cb, mb, steps, w);
    SendsTheorem(ca, ma, cb, mb, steps + [s], v);
    ReadsTheorem(ca, ma, cb, mb, steps, w);
    ReadsTheorem(ca, ma, cb, mb, steps + [s], v);
    var e, f, p := EndAt(w, s.atA), EndAt(v, s.atA), EndAt(w, !s.atA);
    InvBothWays(e, p);
    RecvStep(e, f, p, s.act);
    ReadStep(e, f, p, s.act);
    ServedStep(e, f, p, s.act);
  }
}
