/** One end of a connection: the queues, counters and lists of rdmap.c and ddp.c, first as
    a function on values, then as the class whose methods work in place. */
module Rdmap {
  import opened MpaLayout
  import opened DdpSegments
  import opened DdpReassembly
  import opened CompletionQueue
  import opened Stags

  // ----- the header of an RDMA Read request, in host byte order -----

  datatype ReadReq = ReadReq(sinkStag: nat, sinkTo: nat, size: nat, srcStag: nat, srcTo: nat)

  const REQ_SZ: nat := 32

  function Le(v: nat, width: nat): (b: Bytes)
    ensures |b| == width
    decreases width
  {
    if width == 0 then [] else [v % 256] + Le(v / 256, width - 1)
  }

  function FromLe(b: Bytes): nat {
    if b == [] then 0 else b[0] + 256 * FromLe(b[1..])
  }

  lemma {:induction false} LeRoundTrip(v: nat, width: nat)
    requires v < Pow256(width)
    ensures FromLe(Le(v, width)) == v
    decreases width
  {
    if width > 0 {
      LeRoundTrip(v / 256, width - 1);
      assert Le(v, width)[1..] == Le(v / 256, width - 1);
    }
  }

  predicate ReqFits(r: ReadReq) {
    && r.sinkStag < Pow256(4) && r.size < Pow256(4) && r.srcStag < Pow256(4)
    && r.sinkTo < Pow256(8) && r.srcTo < Pow256(8)
  }

  /** The struct as it lies in memory, with its alignment gap zeroed. */
  function EncodeReq(r: ReadReq): (b: Bytes)
    ensures |b| == REQ_SZ
  {
    Le(r.sinkStag, 4) + Le(0, 4) + Le(r.sinkTo, 8) + Le(r.size, 4) + Le(r.srcStag, 4) + Le(r.srcTo, 8)
  }

  function DecodeReq(b: Bytes): ReadReq
    requires |b| == REQ_SZ
  {
    ReadReq(FromLe(b[..4]), FromLe(b[8..16]), FromLe(b[16..20]), FromLe(b[20..24]), FromLe(b[24..]))
  }

  lemma ReqRoundTrip(r: ReadReq)
    requires ReqFits(r)
    ensures DecodeReq(EncodeReq(r)) == r
  {
    hide Le, FromLe, Pow256;
    var b := EncodeReq(r);
    assert b[..4] == Le(r.sinkStag, 4) && b[8..16] == Le(r.sinkTo, 8) && b[16..20] == Le(r.size, 4);
    assert b[20..24] == Le(r.srcStag, 4) && b[24..] == Le(r.srcTo, 8);
    LeRoundTrip(r.sinkStag, 4);
    LeRoundTrip(r.sinkTo, 8);
    LeRoundTrip(r.size, 4);
    LeRoundTrip(r.srcStag, 4);
    LeRoundTrip(r.srcTo, 8);
  }

  // ----- the state -----

  datatype Opt<T> = Nothing | Just(v: T)

  /** rdmap_untag_wrd_t: a posted receive. */
  datatype Wrd = Wrd(id: nat, addr: nat, len: nat)

  /** rdmap_tag_wrd_t: an outstanding RDMA Read. */
  datatype Rwr = Rwr(id: nat, stag: nat, complete: bool, len: nat)

  /** What never changes: payload limits per segment and the room in the two completion queues. */
  datatype Config = Config(maxU: nat, maxT: nat, scqRoom: nat, rcqRoom: nat)

  datatype St = St(
    mem: Bytes, tags: map<nat, Stag>,
    bufQ: seq<Wrd>, rrQ: seq<Bytes>, rwrq: seq<Rwr>,
    sendMsn: nat, recvMsn: nat, sinkMsn: nat,
    outstTag: seq<Entry>, outstUntag: seq<Entry>,
    scq: seq<Cqe>, rcq: seq<Cqe>,
    sent: seq<Segment>)

  predicate ConfigOk(c: Config) { c.maxU > 0 && c.maxT > 0 }

  /** Posted buffers and tags are memory that exists. */
  predicate Sound(s: St) {
    && (forall w :: w in s.bufQ ==> w.addr + w.len <= |s.mem|)
    && (forall k :: k in s.tags ==> s.tags[k].end <= |s.mem|)
  }

  function Msn(n: nat): nat { n % 0x1_0000_0000 }

  // ----- sending -----

  function SendUntagged(c: Config, s: St, data: Bytes, qn: nat, op: Opcode): St
    requires ConfigOk(c)
  {
    s.(sent := s.sent + Segments(ToQueue(qn, s.sendMsn, op), c.maxU, data), sendMsn := Msn(s.sendMsn + 1))
  }

  function SendTagged(c: Config, s: St, data: Bytes, op: Opcode, stag: nat, to: nat): St
    requires ConfigOk(c)
  {
    s.(sent := s.sent + Segments(ToTag(stag, to, op), c.maxT, data))
  }

  /** rdmap_send; Nothing stands for ENOSPC. */
  function DoSend(c: Config, s: St, data: Bytes, id: nat): Opt<St>
    requires ConfigOk(c)
  {
    if |s.scq| >= c.scqRoom then Nothing
    else
      var s := SendUntagged(c, s, data, SEND_Q, Send);
      Just(s.(scq := Produced(s.scq, c.scqRoom, Cqe(OpSend, id, |data|))))
  }

  /** rdmap_rdma_write. */
  function DoWrite(c: Config, s: St, data: Bytes, stag: nat, to: nat, id: nat): Opt<St>
    requires ConfigOk(c)
  {
    if |s.scq| >= c.scqRoom then Nothing
    else
      var s := SendTagged(c, s, data, RdmaWrite, stag, to);
      Just(s.(scq := Produced(s.scq, c.scqRoom, Cqe(OpRdmaWrite, id, |data|))))
  }

  /** rdmap_rdma_read. */
  function DoRead(c: Config, s: St, r: ReadReq, id: nat): Opt<St>
    requires ConfigOk(c)
  {
    if |s.scq| >= c.scqRoom then Nothing
    else Just(SendUntagged(c, s.(rwrq := s.rwrq + [Rwr(id, r.sinkStag, false, 0)]), EncodeReq(r), RDMAREQ_Q, RdmaReadReq))
  }

  /** rdmap_post_recv. */
  function DoPost(c: Config, s: St, w: Wrd): Opt<St> {
    if |s.rcq| >= c.rcqRoom then Nothing else Just(s.(bufQ := s.bufQ + [w]))
  }

  // ----- receiving -----

  function Put(mem: Bytes, at: nat, data: Bytes): (m: Bytes)
    requires at + |data| <= |mem|
    ensures |m| == |mem|
  {
    mem[..at] + data + mem[at + |data|..]
  }

  /** rdmap_acc. */
  predicate NeedsRead(op: Opcode) { op == RdmaReadReq || op == Send }

  predicate NeedsWrite(op: Opcode) { op == RdmaWrite || op == RdmaReadResp || op == Send }

  predicate TagGrants(s: St, stag: nat, to: nat, len: nat, op: Opcode) {
    stag in s.tags && Grants(s.tags[stag], to, len, NeedsRead(op), NeedsWrite(op))
  }

  lemma GrantedFits(s: St, stag: nat, to: nat, len: nat, op: Opcode)
    requires Sound(s) && TagGrants(s, stag, to, len, op)
    ensures to + len <= |s.mem|
  {
  }

  /** ddp_get_sink and the readv_full into what it gives: Nothing stands for EBADMSG. */
  function Place(s: St, g: Segment): Opt<St>
    requires Sound(s)
  {
    match g
    case Untagged(qn, msn, mo, op, last, data) =>
      if qn == SEND_Q then
        if s.bufQ == [] || mo + |data| > s.bufQ[0].len then Nothing
        else
          assert s.bufQ[0] in s.bufQ;
          Just(s.(mem := Put(s.mem, s.bufQ[0].addr + mo, data)))
      else if qn == RDMAREQ_Q then
        if mo + |data| > REQ_SZ then Nothing
        else Just(s.(rrQ := s.rrQ + [Put(Zeros(REQ_SZ), mo, data)]))
      else Nothing
    case Tagged(stag, to, op, last, data) =>
      if TagGrants(s, stag, to, |data|, op) then Just(s.(mem := Put(s.mem, to, data))) else Nothing
  }

  /** rdmap_sink_op. */
  function SinkOp(op: Opcode): Op {
    match op
    case Send => OpRecv
    case RdmaReadResp => OpRdmaRead
    case _ => OpErr
  }

  predicate Steady(s: St) { Sound(s) && forall b :: b in s.rrQ ==> |b| == REQ_SZ }

  /** rdmap_untag_recv for the send queue. */
  function FinishSend(c: Config, s: St, op: Opcode, len: nat): Opt<St> {
    if s.bufQ == [] then Nothing
    else Just(s.(bufQ := s.bufQ[1..], rcq := Produced(s.rcq, c.rcqRoom, Cqe(SinkOp(op), s.bufQ[0].id, len)),
                 sinkMsn := Msn(s.sinkMsn + 1)))
  }

  /** rdmap_untag_recv for the read request queue; Nothing where the source ends the process. */
  function ServeRead(c: Config, s: St, op: Opcode): Opt<St>
    requires ConfigOk(c) && Steady(s)
  {
    if s.rrQ == [] then Nothing
    else
      assert s.rrQ[0] in s.rrQ;
      var r := DecodeReq(s.rrQ[0]);
      if !TagGrants(s, r.srcStag, r.srcTo, r.size, op) then Nothing
      else
        var s := SendTagged(c, s.(rrQ := s.rrQ[1..]), s.mem[r.srcTo..r.srcTo + r.size], RdmaReadResp, r.sinkStag, r.sinkTo);
        Just(s.(sinkMsn := Msn(s.sinkMsn + 1)))
  }

  /** rdmap_untag_recv. */
  function UntagRecv(c: Config, s: St, op: Opcode, qn: nat, len: nat): Opt<St>
    requires ConfigOk(c) && Steady(s)
  {
    if qn == SEND_Q then FinishSend(c, s, op, len) else ServeRead(c, s, op)
  }

  /** The first loop of rdmap_reap_rwr. */
  function Mark(q: seq<Rwr>, stag: nat, len: nat): (r: seq<Rwr>)
    ensures |r| == |q|
  {
    if q == [] then []
    else [if q[0].stag == stag then q[0].(complete := true, len := len) else q[0]] + Mark(q[1..], stag, len)
  }

  predicate Known(q: seq<Rwr>, stag: nat) { exists k :: 0 <= k < |q| && q[k].stag == stag }

  lemma {:induction false} MarkAt(q: seq<Rwr>, stag: nat, len: nat, k: nat)
    requires k < |q|
    ensures Mark(q, stag, len)[k] == if q[k].stag == stag then q[k].(complete := true, len := len) else q[k]
  {
    if k > 0 {
      MarkAt(q[1..], stag, len, k - 1);
    }
  }

  /** That loop, over the queue as it is now. */
  method MarkComplete(q0: seq<Rwr>, stag: nat, len: nat) returns (q: seq<Rwr>, found: bool)
    ensures q == Mark(q0, stag, len) && found == Known(q0, stag)
  {
    hide Mark;
    q, found := q0, false;
    var k := 0;
    while k < |q|
      invariant 0 <= k <= |q| == |q0|
      invariant forall j :: 0 <= j < k ==> q[j] == Mark(q0, stag, len)[j]
      invariant forall j :: k <= j < |q| ==> q[j] == q0[j]
      invariant found <==> exists j :: 0 <= j < k && q0[j].stag == stag
    {
      MarkAt(q0, stag, len, k);
      if q[k].stag == stag {
        found := true;
        q := q[k := q[k].(complete := true, len := len)];
      }
      k := k + 1;
    }
    assert q == Mark(q0, stag, len);
  }

  /** How many entries at the front are complete. */
  function Ready(q: seq<Rwr>): (n: nat)
    ensures n <= |q|
  {
    if q == [] || !q[0].complete then 0 else 1 + Ready(q[1..])
  }

  function ReadCqe(w: Rwr): Cqe { Cqe(OpRdmaRead, w.id, w.len) }

  function ProduceAll(scq: seq<Cqe>, room: nat, done: seq<Rwr>): seq<Cqe>
    decreases done
  {
    if done == [] then scq else ProduceAll(Produced(scq, room, ReadCqe(done[0])), room, done[1..])
  }

  /** rdmap_reap_rwr. */
  function Reap(c: Config, s: St, stag: nat, len: nat): Opt<St> {
    if !Known(s.rwrq, stag) then Nothing
    else
      var q := Mark(s.rwrq, stag, len);
      var n := Ready(q);
      Just(s.(rwrq := q[n..], scq := ProduceAll(s.scq, c.scqRoom, q[..n])))
  }

  /** rdmap_tag_recv. */
  function TagRecv(c: Config, s: St, op: Opcode, stag: nat, len: nat): Opt<St> {
    match op
    case RdmaWrite => Just(s)
    case RdmaReadResp => Reap(c, s, stag, len)
    case _ => Nothing
  }

  /** ddp_process_ulpdu. */
  function Process(c: Config, s: St, g: Segment): Opt<St>
    requires ConfigOk(c) && Steady(s)
  {
    match g
    case Untagged(qn, msn, mo, op, last, data) =>
      var a := Arrival(MsgKey(qn, msn), |data|, last);
      var s' := s.(outstUntag := Arrive(s.outstUntag, a));
      if !last then Just(s')
      else
        (match UntagRecv(c, s', op, qn, Total(s.outstUntag, a))
         case Nothing => Nothing
         case Just(t) => Just(t.(recvMsn := Msn(t.recvMsn + 1))))
    case Tagged(stag, to, op, last, data) =>
      var a := Arrival(TagKey(stag), |data|, last);
      var s' := s.(outstTag := Arrive(s.outstTag, a));
      if !last then Just(s') else TagRecv(c, s', op, stag, Total(s.outstTag, a))
  }

  lemma PlaceSteady(s: St, g: Segment)
    requires Steady(s)
    ensures Place(s, g).Just? ==> Steady(Place(s, g).v)
  {
  }

  /** mpa_recv on one segment: placement, then processing. */
  function Receive(c: Config, s: St, g: Segment): Opt<St>
    requires ConfigOk(c) && Steady(s)
  {
    PlaceSteady(s, g);
    match Place(s, g)
    case Nothing => Nothing
    case Just(t) => Process(c, t, g)
  }

  lemma ReceiveSteady(c: Config, s: St, g: Segment)
    requires ConfigOk(c) && Steady(s)
    ensures Receive(c, s, g).Just? ==> Steady(Receive(c, s, g).v)
  {
    PlaceSteady(s, g);
  }
}
