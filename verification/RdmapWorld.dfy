/** Two connected ends, every step either of them can take, and what has happened so far. */
module RdmapWorld {
  import opened MpaLayout
  import opened DdpSegments
  import opened DdpReassembly
  import opened CompletionQueue
  import opened Stags
  import opened Rdmap

  // ----- messages -----

  datatype Msg = Msg(d: Dest, data: Bytes)

  datatype Kind = KSend | KRead | KResp | KUntagged

  predicate Is(k: Kind, m: Msg) {
    match k
    case KSend => m.d.ToQueue? && m.d.qn == SEND_Q
    case KRead => m.d.ToQueue? && m.d.qn == RDMAREQ_Q
    case KResp => m.d.ToTag? && m.d.op == RdmaReadResp
    case KUntagged => m.d.ToQueue?
  }

  function Pick(out: seq<Msg>, k: Kind): (p: seq<Msg>)
    ensures |p| <= |out|
  {
    if out == [] then []
    else Pick(out[..|out| - 1], k) + if Is(k, out[|out| - 1]) then [out[|out| - 1]] else []
  }

  function Limit(c: Config, d: Dest): (n: nat)
    requires ConfigOk(c)
    ensures n > 0
  {
    if d.ToQueue? then c.maxU else c.maxT
  }

  /** All segments of these messages, in order. */
  function Flow(c: Config, out: seq<Msg>): seq<Segment>
    requires ConfigOk(c)
  {
    if out == [] then []
    else Segments(out[0].d, Limit(c, out[0].d), out[0].data) + Flow(c, out[1..])
  }

  // ----- what has happened at one end -----

  datatype Recv = Recv(id: nat, len: nat, bytes: Bytes)

  datatype Issue = Issue(id: nat, req: ReadReq)

  /** An accepted rdmap_send or rdmap_rdma_write. */
  datatype Accepted = SendCall(id: nat, data: Bytes) | WriteCall(id: nat, data: Bytes, stag: nat, to: nat)

  /** out: the messages sent; pos: segments taken off the stream; done: messages completely
      received; off: bytes received of the next one; posted: all receives posted; recvLog:
      receive completions with the bytes then in the buffer; issued: all reads; served: the
      source bytes of each read answered; readLog: read completions with the bytes then in
      the sink; rcqTaken, scqTaken: completions consumed; lostR, lostS: whether a
      completion ever found its queue full; calls: all sends and writes, in order. */
  datatype Hist = Hist(
    out: seq<Msg>, pos: nat, done: nat, off: nat,
    posted: seq<Wrd>, recvLog: seq<Recv>, rcqTaken: seq<Cqe>, lostR: bool,
    issued: seq<Issue>, served: seq<Bytes>, readLog: seq<Recv>, scqTaken: seq<Cqe>, lostS: bool,
    calls: seq<Accepted>)

  datatype End = End(c: Config, s: St, h: Hist)

  function Start(c: Config, mem: Bytes): End {
    End(c, St(mem, map[], [], [], [], 1, 1, 1, [], [], [], [], []),
        Hist([], 0, 0, 0, [], [], [], false, [], [], [], [], false, []))
  }

  function Window(mem: Bytes, at: nat, len: nat): Bytes {
    if at + len <= |mem| then mem[at..at + len] else []
  }

  // ----- steps -----

  datatype Action =
    | Post(w: Wrd)
    | DoSendAct(data: Bytes, id: nat)
    | DoWriteAct(data: Bytes, stag: nat, to: nat, id: nat)
    | DoReadAct(r: ReadReq, id: nat)
    | Poll
    | TakeRecv
    | TakeSend
    | Retag(tags: map<nat, Stag>)
    | Store(at: nat, data: Bytes)

  predicate Apart(at: nat, len: nat, from: nat, to: nat) { at + len <= from || to <= at }

  /** What the user owes: buffers that exist, memory left alone while the peer may write to
      it, tags kept while a tagged message is coming in, and reads of at least one byte
      into sink tags that no other outstanding read uses. */
  predicate Legal(e: End, a: Action) {
    match a
    case Post(w) => w.addr + w.len <= |e.s.mem|
    case DoReadAct(r, id) => ReqFits(r) && r.size > 0 && !Known(e.s.rwrq, r.sinkStag)
    case Retag(t) =>
      && (forall k :: k in t ==> t[k].end <= |e.s.mem|)
      && (e.s.outstTag == [] || (forall k :: k in e.s.tags ==> k in t && t[k] == e.s.tags[k]))
    case Store(at, data) =>
      && at + |data| <= |e.s.mem|
      && (forall w :: w in e.s.bufQ ==> Apart(at, |data|, w.addr, w.addr + w.len))
      && (forall k :: k in e.s.tags && e.s.tags[k].write ==> Apart(at, |data|, e.s.tags[k].start, e.s.tags[k].end))
    case _ => true
  }

  predicate EndOk(e: End) { ConfigOk(e.c) && Steady(e.s) }

  /** Completions of reads, each with the bytes then found in its sink. */
  function Finished(ws: seq<Rwr>, issues: seq<Issue>, mem: Bytes): seq<Recv>
    decreases ws
  {
    if ws == [] || issues == [] then []
    else [Recv(ws[0].id, ws[0].len, Window(mem, issues[0].req.sinkTo, ws[0].len))]
         + Finished(ws[1..], issues[1..], mem)
  }

  function From<T>(s: seq<T>, n: nat): seq<T> { if n <= |s| then s[n..] else [] }

  function Advance(h: Hist, last: bool, n: nat): Hist {
    if last then h.(pos := h.pos + 1, done := h.done + 1, off := 0) else h.(pos := h.pos + 1, off := h.off + n)
  }

  /** What a poll that took `g` adds to the history; `t` is the state after it. */
  function Note(e: End, t: St, g: Segment): Hist {
    var h := Advance(e.h, g.last, |g.data|);
    if !g.last then h
    else
      match g
      case Untagged(qn, msn, mo, op, last, data) =>
        if qn == SEND_Q then NoteRecv(e, t, h, Total(e.s.outstUntag, Arrival(MsgKey(qn, msn), |data|, last)))
        else NoteServed(e, h, data)
      case Tagged(stag, to, op, last, data) =>
        if op == RdmaReadResp then NoteRead(e, t, h, stag, Total(e.s.outstTag, Arrival(TagKey(stag), |data|, last)))
        else h
  }

  function NoteRecv(e: End, t: St, h: Hist, len: nat): Hist {
    if e.s.bufQ == [] then h
    else
      var w := e.s.bufQ[0];
      h.(recvLog := h.recvLog + [Recv(w.id, len, Window(t.mem, w.addr, len))],
         lostR := h.lostR || |e.s.rcq| >= e.c.rcqRoom)
  }

  function NoteServed(e: End, h: Hist, data: Bytes): Hist {
    if |data| != REQ_SZ then h
    else
      var r := DecodeReq(data);
      var b := Window(e.s.mem, r.srcTo, r.size);
      h.(served := h.served + [b],
         out := h.out + if b == [] then [] else [Msg(ToTag(r.sinkStag, r.sinkTo, RdmaReadResp), b)])
  }

  function NoteRead(e: End, t: St, h: Hist, stag: nat, len: nat): Hist {
    var q := Mark(e.s.rwrq, stag, len);
    var n := Ready(q);
    h.(readLog := h.readLog + Finished(q[..n], From(h.issued, |h.readLog|), t.mem),
       lostS := h.lostS || |e.s.scq| + n > e.c.scqRoom)
  }

  /** One step of an end whose peer has sent `sent` so far. A call that is refused changes
      nothing; Nothing means that a poll failed and the connection is lost, or that the step
      was not legal. */
  function Act(e: End, sent: seq<Segment>, a: Action): Opt<End> {
    if !EndOk(e) || !Legal(e, a) then Nothing
    else
      match a
      case Post(w) =>
        (match DoPost(e.c, e.s, w)
         case Nothing => Just(e)
         case Just(t) => Just(End(e.c, t, e.h.(posted := e.h.posted + [w]))))
      case DoSendAct(data, id) =>
        (match DoSend(e.c, e.s, data, id)
         case Nothing => Just(e)
         case Just(t) => Just(End(e.c, t, e.h.(out := e.h.out + [Msg(ToQueue(SEND_Q, e.s.sendMsn, Send), data)],
                                               calls := e.h.calls + [SendCall(id, data)]))))
      case DoWriteAct(data, stag, to, id) =>
        (match DoWrite(e.c, e.s, data, stag, to, id)
         case Nothing => Just(e)
         case Just(t) =>
           Just(End(e.c, t, e.h.(out := e.h.out + (if data == [] then [] else [Msg(ToTag(stag, to, RdmaWrite), data)]),
                                 calls := e.h.calls + [WriteCall(id, data, stag, to)]))))
      case DoReadAct(r, id) =>
        (match DoRead(e.c, e.s, r, id)
         case Nothing => Just(e)
         case Just(t) =>
           Just(End(e.c, t, e.h.(out := e.h.out + [Msg(ToQueue(RDMAREQ_Q, e.s.sendMsn, RdmaReadReq), EncodeReq(r))],
                                 issued := e.h.issued + [Issue(id, r)]))))
      case Poll =>
        if e.h.pos >= |sent| then Just(e)
        else
          (match Receive(e.c, e.s, sent[e.h.pos])
           case Nothing => Nothing
           case Just(t) => Just(End(e.c, t, Note(e, t, sent[e.h.pos]))))
      case TakeRecv =>
        if e.s.rcq == [] then Just(e)
        else Just(End(e.c, e.s.(rcq := e.s.rcq[1..]), e.h.(rcqTaken := e.h.rcqTaken + [e.s.rcq[0]])))
      case TakeSend =>
        if e.s.scq == [] then Just(e)
        else Just(End(e.c, e.s.(scq := e.s.scq[1..]), e.h.(scqTaken := e.h.scqTaken + [e.s.scq[0]])))
      case Retag(tags) => Just(End(e.c, e.s.(tags := tags), e.h))
      case Store(at, data) => Just(End(e.c, e.s.(mem := Put(e.s.mem, at, data)), e.h))
  }

  // ----- the invariant -----

  predicate GoodConfig(c: Config) { c.maxU >= REQ_SZ && c.maxT > 0 }

  /** Messages as the two layers make them. */
  predicate MsgOk(m: Msg) {
    match m.d
    case ToQueue(qn, msn, op) =>
      (qn == SEND_Q && op == Send) || (qn == RDMAREQ_Q && op == RdmaReadReq && |m.data| == REQ_SZ)
    case ToTag(stag, to, op) => (op == RdmaWrite || op == RdmaReadResp) && m.data != []
  }

  predicate MsgOkAt(out: seq<Msg>, i: nat)
    requires i < |out|
  {
    MsgOk(out[i]) && (out[i].d.ToQueue? ==> out[i].d.msn == Msn(1 + |Pick(out[..i], KUntagged)|))
  }

  predicate MsgsOk(out: seq<Msg>) { forall i :: 0 <= i < |out| ==> MsgOkAt(out, i) }

  /** What was sent is the flow of the messages, numbered from 1. */
  predicate SenderOk(e: End) {
    && GoodConfig(e.c)
    && MsgsOk(e.h.out) && e.s.sent == Flow(e.c, e.h.out)
    && e.s.sendMsn == Msn(1 + |Pick(e.h.out, KUntagged)|)
  }

  /** The segments still to come when `done` messages and `off` bytes of the next are in. */
  function Pending(c: Config, out: seq<Msg>, done: nat, off: nat): seq<Segment>
    requires GoodConfig(c) && done <= |out| && (off > 0 ==> done < |out|)
    requires done < |out| ==> off <= |out[done].data|
  {
    if done == |out| then []
    else Cut(out[done].d, Limit(c, out[done].d), out[done].data, off) + Flow(c, out[done + 1..])
  }

  /** The first `off` bytes of the message lie where they belong. */
  predicate PartPlaced(s: St, m: Msg, off: nat)
    requires off <= |m.data|
  {
    match m.d
    case ToQueue(qn, msn, op) =>
      && qn == SEND_Q && s.bufQ != [] && off <= s.bufQ[0].len && s.bufQ[0].addr + off <= |s.mem|
      && s.mem[s.bufQ[0].addr..s.bufQ[0].addr + off] == m.data[..off]
    case ToTag(stag, to, op) =>
      && stag in s.tags && s.tags[stag].write && s.tags[stag].start <= to && to + off <= s.tags[stag].end
      && to + off <= |s.mem| && s.mem[to..to + off] == m.data[..off]
  }

  function PartList(m: Msg, off: nat, tagged: bool): seq<Entry> {
    if off > 0 && m.d.ToTag? == tagged then [Entry(KeyOf(m.d), off)] else []
  }

  predicate ProgressOk(e: End, out: seq<Msg>) {
    && e.h.done <= |out|
    && (e.h.off > 0 ==> e.h.done < |out| && e.h.off < |out[e.h.done].data| && PartPlaced(e.s, out[e.h.done], e.h.off))
    && e.s.rrQ == []
    && (if e.h.done < |out| then
          e.s.outstTag == PartList(out[e.h.done], e.h.off, true) && e.s.outstUntag == PartList(out[e.h.done], e.h.off, false)
        else e.s.outstTag == [] && e.s.outstUntag == [])
    && e.s.recvMsn == Msn(1 + |Pick(out[..e.h.done], KUntagged)|) && e.s.sinkMsn == e.s.recvMsn
  }

  /** Receive k completes with id k and message k. */
  function Matched(posted: seq<Wrd>, sends: seq<Msg>): (r: seq<Recv>)
    requires |sends| <= |posted|
    ensures |r| == |sends|
  {
    if sends == [] then []
    else
      var n := |sends| - 1;
      Matched(posted, sends[..n]) + [Recv(posted[n].id, |sends[n].data|, sends[n].data)]
  }

  function RecvCqes(log: seq<Recv>, op: Op): seq<Cqe> {
    if log == [] then [] else RecvCqes(log[..|log| - 1], op) + [Cqe(op, log[|log| - 1].id, log[|log| - 1].len)]
  }

  predicate RecvsOk(e: End, out: seq<Msg>)
    requires e.h.done <= |out|
  {
    var sends := Pick(out[..e.h.done], KSend);
    && |sends| <= |e.h.posted| && e.s.bufQ == e.h.posted[|sends|..]
    && e.h.recvLog == Matched(e.h.posted, sends)
    && (!e.h.lostR ==> e.h.rcqTaken + e.s.rcq == RecvCqes(e.h.recvLog, OpRecv))
  }

  predicate StreamOk(e: End, c: Config, out: seq<Msg>, sent: seq<Segment>)
    requires GoodConfig(c) && e.h.done <= |out| && (e.h.off > 0 ==> e.h.done < |out|)
    requires e.h.done < |out| ==> e.h.off <= |out[e.h.done].data|
  {
    e.h.pos <= |sent| && sent[e.h.pos..] == Pending(c, out, e.h.done, e.h.off)
  }

  /** e receives what p sends. */
  predicate Link(p: End, e: End) {
    && SenderOk(p)
    && ProgressOk(e, p.h.out) && StreamOk(e, p.c, p.h.out, p.s.sent) && RecvsOk(e, p.h.out)
  }

  function Waiting(issues: seq<Issue>): (q: seq<Rwr>)
    ensures |q| == |issues|
    ensures forall k :: 0 <= k < |q| ==> q[k] == Rwr(issues[k].id, issues[k].req.sinkStag, false, 0)
  {
    seq(|issues|, k requires 0 <= k < |issues| => Rwr(issues[k].id, issues[k].req.sinkStag, false, 0))
  }

  function OnlyReads(q: seq<Cqe>): seq<Cqe> {
    if q == [] then [] else OnlyReads(q[..|q| - 1]) + if q[|q| - 1].op == OpRdmaRead then [q[|q| - 1]] else []
  }

  /** Requests are the reads issued. */
  predicate IssuedOk(issued: seq<Issue>, reqs: seq<Msg>) {
    && |reqs| == |issued|
    && forall k :: 0 <= k < |issued| ==>
         reqs[k].data == EncodeReq(issued[k].req) && ReqFits(issued[k].req) && issued[k].req.size > 0
  }

  /** Responses answer the first requests, in order. */
  predicate ServedOk(issued: seq<Issue>, n: nat, resps: seq<Msg>, served: seq<Bytes>) {
    && |resps| == n == |served| && n <= |issued|
    && forall k :: 0 <= k < n ==>
         && resps[k] == Msg(ToTag(issued[k].req.sinkStag, issued[k].req.sinkTo, RdmaReadResp), served[k])
         && |served[k]| == issued[k].req.size
  }

  /** Read k completes with id k, its length, and the bytes it was served with. */
  predicate ReadsDone(issued: seq<Issue>, served: seq<Bytes>, log: seq<Recv>) {
    && |log| <= |served| && |log| <= |issued|
    && forall k :: 0 <= k < |log| ==> log[k] == Recv(issued[k].id, issued[k].req.size, served[k])
  }

  predicate OneTagEach(q: seq<Rwr>) { forall i, j :: 0 <= i < j < |q| ==> q[i].stag != q[j].stag }

  /** e reads from p. */
  predicate Reads(e: End, p: End)
    requires p.h.done <= |e.h.out| && e.h.done <= |p.h.out|
  {
    && IssuedOk(e.h.issued, Pick(e.h.out, KRead))
    && ServedOk(e.h.issued, |Pick(e.h.out[..p.h.done], KRead)|, Pick(p.h.out, KResp), p.h.served)
    && |e.h.readLog| == |Pick(p.h.out[..e.h.done], KResp)|
    && ReadsDone(e.h.issued, p.h.served, e.h.readLog)
    && e.s.rwrq == Waiting(e.h.issued[|e.h.readLog|..]) && OneTagEach(e.s.rwrq)
    && (!e.h.lostS ==> OnlyReads(e.h.scqTaken + e.s.scq) == RecvCqes(e.h.readLog, OpRdmaRead))
  }

  predicate Inv(e: End, p: End) {
    && Steady(e.s) && Steady(p.s)
    && Link(e, p) && Link(p, e)
    && Reads(e, p) && Reads(p, e)
  }
}
