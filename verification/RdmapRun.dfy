/** The protocol over whole runs: any interleaving of calls and polls at two connected ends. */
module RdmapRun {
  import opened MpaLayout
  import opened DdpSegments
  import opened DdpReassembly
  import opened CompletionQueue
  import opened Stags
  import opened Rdmap
  import opened RdmapWorld
  import opened RdmapGrowth
  import opened RdmapPoll
  import opened RdmapReceive
  import opened RdmapPolls
  import opened RdmapReads

  // ----- polls -----

  /** What the next segment needs: a posted receive that is long enough, a tag that grants
      the write, or for a read request a tag that grants reading the source. */
  predicate Welcome(e: End, p: End) {
    && e.h.done < |p.h.out| && e.h.off <= |p.h.out[e.h.done].data|
    && var m := p.h.out[e.h.done];
       if Is(KRead, m) then Asked(e, p) < |p.h.issued| && Servable(e.s, p.h.issued[Asked(e, p)].req)
       else HasRoom(e.s, m, e.h.off, |Chunk(m, e.h.off, Limit1(p.c, m.d))|)
  }

  function Limit1(c: Config, d: Dest): nat { if d.ToQueue? then c.maxU else c.maxT }

  predicate Keeps(r: Opt<End>, p: End) { r.Just? ==> Inv(r.v, p) }

  lemma PollNext(e: End, p: End)
    requires EndOk(e) && Inv(e, p) && e.h.pos < |p.s.sent|
    ensures Act(e, p.s.sent, Poll).Just? <==> Welcome(e, p)
    ensures Keeps(Act(e, p.s.sent, Poll), p)
  {
    hide Pending, Pick, Flow, MsgsOk, Matched, RecvCqes, Msn, IssuedOk, ServedOk, ReadsDone, Note, Waiting,
         OnlyReads, OneTagEach, Sound, ProgressOk, StreamOk, RecvsOk, Reads, PartPlaced, HasRoom, Link,
         Servable, TheSeg, Receive;
    var m, b := ReadNext(e, p);
    assert Act(e, p.s.sent, Poll) == if Taken(e, m, b).Nothing? then Nothing else Just(Polled(e, Taken(e, m, b).v, m, b));
    ChunkIs(e, p, m, b);
    if e.h.off + |b| < |m.data| {
      PollMiddle(e, p, m, b);
    } else if m.d.ToTag? {
      if m.d.op == RdmaWrite {
        PollWrite(e, p, m, b);
      } else {
        PollResponse(e, p, m, b);
      }
    } else if m.d.qn == SEND_Q {
      PollSend(e, p, m, b);
    } else {
      PollRequest(e, p, m, b);
    }
  }

  lemma ChunkIs(e: End, p: End, m: Msg, b: Bytes)
    requires Link(p, e) && e.h.pos < |p.s.sent| && Next(e, p, m, b) && p.s.sent[e.h.pos] == TheSeg(e, m, b)
    ensures e.h.off <= |m.data| && |b| == |Chunk(m, e.h.off, Limit1(p.c, m.d))|
  {
    hide Pending, Flow, MsgsOk, Matched, RecvCqes, Msn, Pick, PartPlaced;
    NextSegment(p.c, p.h.out, e.h.done, e.h.off, p.s.sent[e.h.pos..]);
    SegLast(m.d, e.h.off, e.h.off + |b| == |m.data|, b);
    assert p.s.sent[e.h.pos..][0] == p.s.sent[e.h.pos];
    var c := Chunk(m, e.h.off, Limit(p.c, m.d));
    SegLast(m.d, e.h.off, Final(m, e.h.off, Limit(p.c, m.d)), c);
  }

  // ----- calls -----

  lemma {:induction false} MatchedPosted(posted: seq<Wrd>, w: Wrd, sends: seq<Msg>)
    requires |sends| <= |posted|
    ensures Matched(posted + [w], sends) == Matched(posted, sends)
    decreases |sends|
  {
    if sends != [] {
      MatchedPosted(posted, w, sends[..|sends| - 1]);
    }
  }

  lemma PostKeepsRecvs(e: End, f: End, p: End, w: Wrd)
    requires Link(p, e) && f.h == e.h.(posted := e.h.posted + [w]) && f.s == e.s.(bufQ := e.s.bufQ + [w])
    ensures Link(p, f)
  {
    hide Pending, Pick, Flow, MsgsOk, Matched, RecvCqes, Msn, StreamOk;
    MatchedPosted(e.h.posted, w, Pick(p.h.out[..e.h.done], KSend));
    StreamSame(e, f, p);
  }

  lemma StreamSame(e: End, f: End, p: End)
    requires Link(p, e) && f.h.pos == e.h.pos && f.h.done == e.h.done && f.h.off == e.h.off
    ensures StreamOk(f, p.c, p.h.out, p.s.sent)
  {
    hide Pending, Pick, Flow, MsgsOk, Matched, RecvCqes, Msn, PartPlaced;
  }

  /** Neither end's reads look at anything else. */
  lemma ReadsBothKept(e: End, f: End, p: End)
    requires e.h.done <= |p.h.out| && p.h.done <= |e.h.out| && Reads(e, p) && Reads(p, e)
    requires f.h.done == e.h.done && f.h.out == e.h.out && f.h.served == e.h.served && SameReads(e, f)
    ensures Reads(f, p) && Reads(p, f)
  {
    hide Pick, IssuedOk, ServedOk, ReadsDone, OnlyReads, RecvCqes, OneTagEach, Waiting;
  }

  lemma PostKeeps(e: End, p: End, w: Wrd)
    requires EndOk(e) && Legal(e, Post(w)) && Inv(e, p)
    ensures Act(e, p.s.sent, Post(w)).Just? && Inv(Act(e, p.s.sent, Post(w)).v, p)
  {
    hide Link, Reads, OnlyReads;
    var f := Act(e, p.s.sent, Post(w)).v;
    if |e.s.rcq| < e.c.rcqRoom {
      PostKeepsRecvs(e, f, p, w);
      LinkSender(e, f, p);
      LinkDone(e, p);
      LinkDone(p, e);
      ReadsBothKept(e, f, p);
    }
  }

  lemma ScqPush(e: End, f: End, c: Cqe)
    requires c.op != OpRdmaRead && |e.s.scq| < e.c.scqRoom && f.s.scq == Produced(e.s.scq, e.c.scqRoom, c)
    requires f.h.scqTaken == e.h.scqTaken
    ensures OnlyReads(f.h.scqTaken + f.s.scq) == OnlyReads(e.h.scqTaken + e.s.scq)
  {
    hide OnlyReads;
    OnlyReadsPush(e.h.scqTaken + e.s.scq, c);
    assert e.h.scqTaken + (e.s.scq + [c]) == e.h.scqTaken + e.s.scq + [c];
    var q := OnlyReads(e.h.scqTaken + e.s.scq);
    assert q + [] == q;
  }

  /** e has sent one more message and is otherwise as before. */
  predicate Sent1(e: End, f: End, m: Msg) {
    && Grown(e, f, m) && MsgOk(m) && (m.d.ToQueue? ==> m.d.msn == e.s.sendMsn)
    && f.s == e.s.(sent := f.s.sent, sendMsn := f.s.sendMsn, scq := f.s.scq, rwrq := f.s.rwrq)
    && f.h == e.h.(out := f.h.out, issued := f.h.issued, calls := f.h.calls)
  }

  lemma SentKeepsLinks(e: End, f: End, m: Msg, p: End)
    requires Inv(e, p) && Sent1(e, f, m)
    ensures Steady(f.s) && Link(f, p) && Link(p, f)
  {
    hide Pending, Pick, Flow, MsgsOk, Matched, RecvCqes, Msn, Reads, Grown, MsgOk;
    LinkGrown(e, f, m, p);
  }

  lemma SentKeeps(e: End, f: End, m: Msg, p: End)
    requires Inv(e, p) && Sent1(e, f, m) && !Is(KRead, m) && !Is(KResp, m) && SameReads(e, f)
    ensures Inv(f, p)
  {
    hide Pending, Pick, Flow, MsgsOk, Matched, RecvCqes, Msn, Reads, Segments, MsgOk, Link, SameReads, Is;
    SentKeepsLinks(e, f, m, p);
    LinkDone(e, p);
    LinkDone(p, e);
    ReadsRequesterGrown(e, f, m, p);
    ReadsResponderGrown(p, e, f, m);
  }

  lemma SendKeeps(e: End, p: End, data: Bytes, id: nat)
    requires EndOk(e) && Inv(e, p)
    ensures Act(e, p.s.sent, DoSendAct(data, id)).Just? && Inv(Act(e, p.s.sent, DoSendAct(data, id)).v, p)
  {
    hide Link, Reads, Sound, OnlyReads, Segments, Msn, Produced;
    var f := Act(e, p.s.sent, DoSendAct(data, id)).v;
    var m := Msg(ToQueue(SEND_Q, e.s.sendMsn, Send), data);
    LinkConfig(e, p);
    if |e.s.scq| < e.c.scqRoom {
      ScqPush(e, f, Cqe(OpSend, id, |data|));
      assert Sent1(e, f, m);
      SentKeeps(e, f, m, p);
    }
  }

  lemma LinkConfig(e: End, p: End)
    requires Link(e, p)
    ensures GoodConfig(e.c)
  {
  }

  lemma WriteKeeps(e: End, p: End, data: Bytes, stag: nat, to: nat, id: nat)
    requires EndOk(e) && Inv(e, p)
    ensures Act(e, p.s.sent, DoWriteAct(data, stag, to, id)).Just?
    ensures Inv(Act(e, p.s.sent, DoWriteAct(data, stag, to, id)).v, p)
  {
    hide Link, Reads, Sound, OnlyReads, Msn, Produced, Cut;
    var f := Act(e, p.s.sent, DoWriteAct(data, stag, to, id)).v;
    var m := Msg(ToTag(stag, to, RdmaWrite), data);
    LinkConfig(e, p);
    if |e.s.scq| < e.c.scqRoom {
      ScqPush(e, f, Cqe(OpRdmaWrite, id, |data|));
      if data == [] {
        assert e.s.sent + [] == e.s.sent && e.h.out + [] == e.h.out;
        NothingSent(e, f, p);
      } else {
        assert Sent1(e, f, m);
        SentKeeps(e, f, m, p);
      }
    }
  }

  lemma NothingSent(e: End, f: End, p: End)
    requires Inv(e, p) && f.c == e.c && f.s == e.s.(scq := f.s.scq) && f.h == e.h.(calls := f.h.calls) && SameReads(e, f)
    ensures Inv(f, p)
  {
    hide Pending, Pick, Flow, MsgsOk, Matched, RecvCqes, Msn, IssuedOk, ServedOk, ReadsDone, Waiting,
         OnlyReads, OneTagEach;
  }

  lemma IssuedPush(issued: seq<Issue>, reqs: seq<Msg>, i: Issue, m: Msg)
    requires IssuedOk(issued, reqs) && m.data == EncodeReq(i.req) && ReqFits(i.req) && i.req.size > 0
    ensures IssuedOk(issued + [i], reqs + [m])
  {
    hide EncodeReq, ReqFits;
  }

  lemma ServedStill(issued: seq<Issue>, i: Issue, n: nat, resps: seq<Msg>, served: seq<Bytes>, log: seq<Recv>)
    requires ServedOk(issued, n, resps, served) && ReadsDone(issued, served, log)
    ensures ServedOk(issued + [i], n, resps, served) && ReadsDone(issued + [i], served, log)
  {
  }

  lemma WaitingPush(issued: seq<Issue>, i: Issue, n: nat)
    requires n <= |issued|
    ensures Waiting((issued + [i])[n..]) == Waiting(issued[n..]) + [Rwr(i.id, i.req.sinkStag, false, 0)]
  {
    assert (issued + [i])[n..] == issued[n..] + [i];
  }

  lemma OneTagPush(q: seq<Rwr>, w: Rwr)
    requires OneTagEach(q) && !Known(q, w.stag)
    ensures OneTagEach(q + [w])
  {
  }

  lemma ReadsIssued(e: End, f: End, m: Msg, i: Issue, p: End)
    requires p.h.done <= |e.h.out| && e.h.done <= |p.h.out| && Reads(e, p)
    requires Is(KRead, m) && m.data == EncodeReq(i.req) && ReqFits(i.req) && i.req.size > 0
    requires !Known(e.s.rwrq, i.req.sinkStag)
    requires f.h == e.h.(out := e.h.out + [m], issued := e.h.issued + [i]) && f.s.scq == e.s.scq
    requires f.s.rwrq == e.s.rwrq + [Rwr(i.id, i.req.sinkStag, false, 0)]
    ensures Reads(f, p)
  {
    hide Pick, IssuedOk, ServedOk, ReadsDone, OnlyReads, RecvCqes, Is, OneTagEach, Waiting, EncodeReq, ReqFits;
    PickPush(e.h.out, m, KRead);
    TakeGrown(e.h.out, m, p.h.done);
    IssuedPush(e.h.issued, Pick(e.h.out, KRead), i, m);
    ServedStill(e.h.issued, i, |Pick(e.h.out[..p.h.done], KRead)|, Pick(p.h.out, KResp), p.h.served, e.h.readLog);
    LogShort(e.h.issued, p.h.served, e.h.readLog);
    WaitingPush(e.h.issued, i, |e.h.readLog|);
    OneTagPush(e.s.rwrq, Rwr(i.id, i.req.sinkStag, false, 0));
  }

  lemma LogShort(issued: seq<Issue>, served: seq<Bytes>, log: seq<Recv>)
    requires ReadsDone(issued, served, log)
    ensures |log| <= |issued|
  {
  }

  lemma ReadKeeps(e: End, p: End, r: ReadReq, id: nat)
    requires EndOk(e) && Legal(e, DoReadAct(r, id)) && Inv(e, p)
    ensures Act(e, p.s.sent, DoReadAct(r, id)).Just? && Inv(Act(e, p.s.sent, DoReadAct(r, id)).v, p)
  {
    hide Link, Reads, Sound, OnlyReads, Segments, Msn, EncodeReq, ReqFits, Known;
    var f := Act(e, p.s.sent, DoReadAct(r, id)).v;
    var m := Msg(ToQueue(RDMAREQ_Q, e.s.sendMsn, RdmaReadReq), EncodeReq(r));
    LinkConfig(e, p);
    if |e.s.scq| < e.c.scqRoom {
      assert Sent1(e, f, m);
      SentKeepsLinks(e, f, m, p);
      LinkDone(e, p);
      LinkDone(p, e);
      ReadsIssued(e, f, m, Issue(id, r), p);
      ReadsResponderGrown(p, e, f, m);
    }
  }

  lemma TakeRecvLink(e: End, f: End, p: End)
    requires Link(p, e) && f.h == e.h.(rcqTaken := f.h.rcqTaken) && f.s == e.s.(rcq := f.s.rcq)
    requires f.h.rcqTaken + f.s.rcq == e.h.rcqTaken + e.s.rcq
    ensures Link(p, f)
  {
    hide Pending, Pick, Flow, MsgsOk, Matched, RecvCqes, Msn, StreamOk;
    StreamSame(e, f, p);
  }

  lemma TakeRecvKeeps(e: End, p: End)
    requires EndOk(e) && Inv(e, p)
    ensures Act(e, p.s.sent, TakeRecv).Just? && Inv(Act(e, p.s.sent, TakeRecv).v, p)
  {
    hide Link, Reads, OnlyReads;
    var f := Act(e, p.s.sent, TakeRecv).v;
    if e.s.rcq != [] {
      assert e.h.rcqTaken + [e.s.rcq[0]] + e.s.rcq[1..] == e.h.rcqTaken + e.s.rcq;
      TakeRecvLink(e, f, p);
      LinkSender(e, f, p);
      LinkDone(e, p);
      LinkDone(p, e);
      ReadsBothKept(e, f, p);
    }
  }

  lemma TakeSendLink(e: End, f: End, p: End)
    requires Link(p, e) && f.h == e.h.(scqTaken := f.h.scqTaken) && f.s == e.s.(scq := f.s.scq)
    ensures Link(p, f)
  {
    hide Pending, Pick, Flow, MsgsOk, Matched, RecvCqes, Msn, StreamOk;
    StreamSame(e, f, p);
  }

  lemma TakeSendKeeps(e: End, p: End)
    requires EndOk(e) && Inv(e, p)
    ensures Act(e, p.s.sent, TakeSend).Just? && Inv(Act(e, p.s.sent, TakeSend).v, p)
  {
    hide Link, Reads, OnlyReads;
    var f := Act(e, p.s.sent, TakeSend).v;
    if e.s.scq != [] {
      assert e.h.scqTaken + [e.s.scq[0]] + e.s.scq[1..] == e.h.scqTaken + e.s.scq;
      TakeSendLink(e, f, p);
      LinkSender(e, f, p);
      LinkDone(e, p);
      LinkDone(p, e);
      ReadsBothKept(e, f, p);
    }
  }

  lemma RetagPart(s: St, t: St, m: Msg, off: nat)
    requires 0 < off <= |m.data| && PartPlaced(s, m, off) && s.outstTag == PartList(m, off, true)
    requires t == s.(tags := t.tags)
    requires s.outstTag == [] || (forall k :: k in s.tags ==> k in t.tags && t.tags[k] == s.tags[k])
    ensures PartPlaced(t, m, off)
  {
  }

  lemma RetagKeeps(e: End, p: End, tags: map<nat, Stag>)
    requires EndOk(e) && Legal(e, Retag(tags)) && Inv(e, p)
    ensures Act(e, p.s.sent, Retag(tags)).Just? && Inv(Act(e, p.s.sent, Retag(tags)).v, p)
  {
    hide Pending, Pick, Flow, MsgsOk, Matched, RecvCqes, Msn, IssuedOk, ServedOk, ReadsDone, Waiting,
         OnlyReads, OneTagEach, PartPlaced;
    var f := Act(e, p.s.sent, Retag(tags)).v;
    if e.h.off > 0 {
      RetagPart(e.s, f.s, p.h.out[e.h.done], e.h.off);
    }
  }

  lemma PutAway(mem: Bytes, at: nat, data: Bytes, from: nat, to: nat)
    requires at + |data| <= |mem| && from <= to <= |mem| && Apart(at, |data|, from, to)
    ensures Put(mem, at, data)[from..to] == mem[from..to]
  {
  }

  lemma StorePart(s: St, t: St, m: Msg, off: nat, at: nat, data: Bytes)
    requires Steady(s) && 0 < off <= |m.data| && PartPlaced(s, m, off) && at + |data| <= |s.mem|
    requires t == s.(mem := Put(s.mem, at, data))
    requires forall w :: w in s.bufQ ==> Apart(at, |data|, w.addr, w.addr + w.len)
    requires forall k :: k in s.tags && s.tags[k].write ==> Apart(at, |data|, s.tags[k].start, s.tags[k].end)
    ensures PartPlaced(t, m, off)
  {
    hide Put;
    match m.d {
      case ToQueue(qn, msn, op) =>
        assert s.bufQ[0] in s.bufQ;
        PutAway(s.mem, at, data, s.bufQ[0].addr, s.bufQ[0].addr + off);
      case ToTag(stag, to, op) =>
        PutAway(s.mem, at, data, to, to + off);
    }
  }

  lemma StoreKeeps(e: End, p: End, at: nat, data: Bytes)
    requires EndOk(e) && Legal(e, Store(at, data)) && Inv(e, p)
    ensures Act(e, p.s.sent, Store(at, data)).Just? && Inv(Act(e, p.s.sent, Store(at, data)).v, p)
  {
    hide Pending, Pick, Flow, MsgsOk, Matched, RecvCqes, Msn, IssuedOk, ServedOk, ReadsDone, Waiting,
         OnlyReads, OneTagEach, PartPlaced, Put;
    var f := Act(e, p.s.sent, Store(at, data)).v;
    if e.h.off > 0 {
      StorePart(e.s, f.s, p.h.out[e.h.done], e.h.off, at, data);
    }
  }

  /** No legal step breaks the invariant, and only a poll can lose the connection. */
  lemma StepKeeps(e: End, p: End, a: Action)
    requires EndOk(e) && Legal(e, a) && Inv(e, p)
    ensures Keeps(Act(e, p.s.sent, a), p)
    ensures Act(e, p.s.sent, a).Nothing? ==> a == Poll
  {
    hide Inv, Legal;
    match a {
      case Post(w) => PostKeeps(e, p, w);
      case DoSendAct(data, id) => SendKeeps(e, p, data, id);
      case DoWriteAct(data, stag, to, id) => WriteKeeps(e, p, data, stag, to, id);
      case DoReadAct(r, id) => ReadKeeps(e, p, r, id);
      case Poll =>
        if e.h.pos < |p.s.sent| {
          PollNext(e, p);
        }
      case TakeRecv => TakeRecvKeeps(e, p);
      case TakeSend => TakeSendKeeps(e, p);
      case Retag(tags) => RetagKeeps(e, p, tags);
      case Store(at, data) => StoreKeeps(e, p, at, data);
    }
  }

  // ----- runs -----

  datatype World = World(a: End, b: End)

  /** Which end takes the step, and what it does. */
  datatype Step = Step(atA: bool, act: Action)

  predicate WorldOk(w: World) { Inv(w.a, w.b) && EndOk(w.a) && EndOk(w.b) }

  function Acting(w: World, s: Step): End { if s.atA then w.a else w.b }

  predicate StepLegal(w: World, s: Step) { Legal(Acting(w, s), s.act) }

  function Take(w: World, s: Step): Opt<World> {
    if s.atA then
      match Act(w.a, w.b.s.sent, s.act)
      case Nothing => Nothing
      case Just(e) => Just(World(e, w.b))
    else
      match Act(w.b, w.a.s.sent, s.act)
      case Nothing => Nothing
      case Just(e) => Just(World(w.a, e))
  }

  lemma InvBothWays(e: End, p: End)
    requires Inv(e, p)
    ensures Inv(p, e) && Steady(e.s) && Steady(p.s) && EndOk(e) && EndOk(p)
  {
    hide Reads, ProgressOk, StreamOk, RecvsOk, Flow, Pick, MsgsOk, Msn, Sound;
  }

  lemma TakeKeeps(w: World, s: Step)
    requires WorldOk(w) && StepLegal(w, s)
    ensures Take(w, s).Just? ==> WorldOk(Take(w, s).v)
    ensures Take(w, s).Nothing? ==> s.act == Poll
  {
    hide Inv, Legal, Act, EndOk;
    InvBothWays(w.a, w.b);
    if s.atA {
      StepKeeps(w.a, w.b, s.act);
    } else {
      StepKeeps(w.b, w.a, s.act);
    }
    if Take(w, s).Just? {
      var v := Take(w, s).v;
      if s.atA {
        InvBothWays(v.a, v.b);
      } else {
        InvBothWays(v.b, v.a);
      }
    }
  }

  /** Whether every step is legal where it is taken; a failed poll ends the run. */
  predicate RunLegal(w: World, steps: seq<Step>)
    decreases steps
  {
    steps == []
    || (StepLegal(w, steps[0]) && (Take(w, steps[0]).Nothing? || RunLegal(Take(w, steps[0]).v, steps[1..])))
  }

  function Run(w: World, steps: seq<Step>): Opt<World>
    decreases steps
  {
    if steps == [] then Just(w)
    else
      match Take(w, steps[0])
      case Nothing => Nothing
      case Just(v) => Run(v, steps[1..])
  }

  lemma Fresh(ca: Config, ma: Bytes, cb: Config, mb: Bytes)
    requires GoodConfig(ca) && GoodConfig(cb)
    ensures WorldOk(World(Start(ca, ma), Start(cb, mb)))
  {
    var a, b := Start(ca, ma), Start(cb, mb);
    assert a.h.posted[0..] == [] && a.h.issued[0..] == [];
    assert a.s.sent[0..] == [];
  }

  /** Every run from two fresh ends stays within the invariant. */
  lemma {:induction false} RunKeeps(w: World, steps: seq<Step>)
    requires WorldOk(w) && RunLegal(w, steps)
    ensures Run(w, steps).Just? ==> WorldOk(Run(w, steps).v)
    decreases steps
  {
    hide WorldOk, StepLegal, Take;
    if steps != [] {
      TakeKeeps(w, steps[0]);
      if Take(w, steps[0]).Just? {
        RunKeeps(Take(w, steps[0]).v, steps[1..]);
      }
    }
  }
}
