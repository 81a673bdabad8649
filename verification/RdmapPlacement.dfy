/** What one segment may write, where it lands, and what it leaves alone, field by field and
    byte by byte. */
module RdmapPlacement {
  import opened MpaLayout
  import opened DdpSegments
  import opened DdpReassembly
  import opened CompletionQueue
  import opened Stags
  import opened Rdmap

  // ----- when a segment has somewhere to go -----

  /** A tag covers the range. */
  predicate InTag(s: St, stag: nat, at: nat, len: nat) {
    stag in s.tags && s.tags[stag].start <= at < s.tags[stag].end && at + len <= s.tags[stag].end
  }

  /** Into a tag it covers, with the access that its opcode needs there; into the oldest
      posted receive; or as a new read request. */
  predicate MayLand(s: St, g: Segment) {
    match g
    case Tagged(stag, to, op, _, data) =>
      && InTag(s, stag, to, |data|)
      && (op == Send || op == RdmaWrite || op == RdmaReadResp ==> s.tags[stag].write)
      && (op == Send || op == RdmaReadReq ==> s.tags[stag].read)
    case Untagged(qn, _, mo, _, _, data) =>
      || (qn == 0 && s.bufQ != [] && mo + |data| <= s.bufQ[0].len)
      || (qn == 1 && mo + |data| <= 32)
  }

  lemma PlaceExactly(s: St, g: Segment)
    requires Sound(s)
    ensures Place(s, g).Just? <==> MayLand(s, g)
  {
    hide Put, Zeros;
  }

  // ----- where it lands -----

  /** Memory is as before but for the data, which lies at `at`. */
  predicate Written(was: Bytes, now: Bytes, at: nat, data: Bytes) {
    && |now| == |was| && at + |data| <= |was|
    && (forall k :: 0 <= k < |data| ==> now[at + k] == data[k])
    && (forall a :: 0 <= a < |was| && !(at <= a < at + |data|) ==> now[a] == was[a])
  }

  lemma PutWrites(mem: Bytes, at: nat, data: Bytes)
    requires at + |data| <= |mem|
    ensures Written(mem, Put(mem, at, data), at, data)
  {
  }

  /** A read request as it was received: the data, and zeros around it. */
  predicate Request(q: Bytes, mo: nat, data: Bytes) {
    && |q| == 32 && mo + |data| <= 32
    && forall k :: 0 <= k < 32 ==> q[k] == if mo <= k < mo + |data| then data[k - mo] else 0
  }

  lemma PutRequest(mo: nat, data: Bytes)
    requires mo + |data| <= REQ_SZ
    ensures Request(Put(Zeros(REQ_SZ), mo, data), mo, data)
  {
    hide Zeros;
    forall k | 0 <= k < REQ_SZ ensures Zeros(REQ_SZ)[k] == 0 {
      ZerosAt(REQ_SZ, k);
    }
  }

  /** The data lies where the header says, every other byte of memory keeps its value, and
      nothing else changes. */
  lemma PlaceWrites(s: St, g: Segment)
    requires Sound(s) && Place(s, g).Just?
    ensures var t := Place(s, g).v;
            match g
            case Tagged(_, to, _, _, data) => Written(s.mem, t.mem, to, data) && t == s.(mem := t.mem)
            case Untagged(qn, _, mo, _, _, data) =>
              if qn == 0 then
                s.bufQ != [] && Written(s.mem, t.mem, s.bufQ[0].addr + mo, data) && t == s.(mem := t.mem)
              else
                qn == 1 && |t.rrQ| == |s.rrQ| + 1 && t == s.(rrQ := t.rrQ)
                && t.rrQ[..|s.rrQ|] == s.rrQ && Request(t.rrQ[|s.rrQ|], mo, data)
  {
    hide Put, Zeros;
    match g {
      case Tagged(stag, to, op, _, data) => PutWrites(s.mem, to, data);
      case Untagged(qn, _, mo, _, _, data) =>
        if qn == SEND_Q {
          assert s.bufQ[0] in s.bufQ;
          PutWrites(s.mem, s.bufQ[0].addr + mo, data);
        } else {
          PutRequest(mo, data);
        }
    }
  }

  // ----- the whole poll, for any segment -----

  /** The source of a read request has the access its opcode needs. */
  predicate MayServe(s: St, q: ReadReq, op: Opcode) {
    && InTag(s, q.srcStag, q.srcTo, q.size)
    && (op == Send || op == RdmaReadReq ==> s.tags[q.srcStag].read)
    && (op == Send || op == RdmaWrite || op == RdmaReadResp ==> s.tags[q.srcStag].write)
  }

  lemma GrantsAre(s: St, stag: nat, at: nat, len: nat, op: Opcode)
    ensures TagGrants(s, stag, at, len, op) <==>
            && InTag(s, stag, at, len)
            && (op == Send || op == RdmaReadReq ==> s.tags[stag].read)
            && (op == Send || op == RdmaWrite || op == RdmaReadResp ==> s.tags[stag].write)
  {
  }

  /** What the last segment of a message needs besides: a read request must be one that can
      be served, a tagged message an RDMA Write or the answer to an outstanding read. */
  predicate MayFinish(s: St, g: Segment)
    requires Steady(s) && MayLand(s, g)
  {
    match g
    case Tagged(stag, _, op, _, _) =>
      op == RdmaWrite || (op == RdmaReadResp && exists k :: 0 <= k < |s.rwrq| && s.rwrq[k].stag == stag)
    case Untagged(qn, _, mo, op, _, data) =>
      qn == 0 || MayServe(s, FirstRequest(s, mo, data), op)
  }

  /** The request that a poll serves: the oldest one. */
  function FirstRequest(s: St, mo: nat, data: Bytes): ReadReq
    requires Steady(s) && mo + |data| <= 32
  {
    if s.rrQ != [] then
      assert s.rrQ[0] in s.rrQ;
      DecodeReq(s.rrQ[0])
    else DecodeReq(Put(Zeros(REQ_SZ), mo, data))
  }

  lemma ServeExactly(c: Config, s: St, op: Opcode)
    requires ConfigOk(c) && Steady(s)
    ensures s.rrQ != [] ==> s.rrQ[0] in s.rrQ && |s.rrQ[0]| == REQ_SZ
    ensures ServeRead(c, s, op).Just? <==> s.rrQ != [] && MayServe(s, DecodeReq(s.rrQ[0]), op)
  {
    hide DecodeReq, Segments, TagGrants, MayServe, Msn;
    if s.rrQ != [] {
      assert s.rrQ[0] in s.rrQ;
      var r := DecodeReq(s.rrQ[0]);
      ServeGrants(s, r, op);
      if TagGrants(s, r.srcStag, r.srcTo, r.size, op) {
        GrantedFits(s, r.srcStag, r.srcTo, r.size, op);
      }
    }
  }

  lemma ServeGrants(s: St, r: ReadReq, op: Opcode)
    ensures TagGrants(s, r.srcStag, r.srcTo, r.size, op) <==> MayServe(s, r, op)
  {
    GrantsAre(s, r.srcStag, r.srcTo, r.size, op);
  }

  /** A poll takes a segment, whatever it is and wherever it comes from, exactly when it may
      land and, being the last of its message, may finish it. */
  lemma ReceiveExactly(c: Config, s: St, g: Segment)
    requires ConfigOk(c) && Steady(s)
    ensures Receive(c, s, g).Just? <==> MayLand(s, g) && (g.last ==> MayFinish(s, g))
  {
    hide MayLand, Put, Zeros, DecodeReq, MayServe, ServeRead, Arrive, Total, Mark, Ready, ProduceAll, Produced, Msn,
         Segments, TagGrants;
    PlaceExactly(s, g);
    PlaceSteady(s, g);
    if Place(s, g).Just? {
      var t := Place(s, g).v;
      if g.Untagged? && g.qn == RDMAREQ_Q {
        RequestPlaced(s, g);
        ServeExactly(c, t.(outstUntag := Arrive(s.outstUntag, Arrival(MsgKey(g.qn, g.msn), |g.data|, g.last))), g.op);
        SameTags(s, t, FirstRequest(s, g.mo, g.data), g.op);
      } else if g.Untagged? {
        QueuesPlaced(s, g);
      }
    }
  }

  lemma SameTags(s: St, t: St, q: ReadReq, op: Opcode)
    requires t.tags == s.tags
    ensures forall u: St :: u.tags == s.tags ==> (MayServe(u, q, op) <==> MayServe(s, q, op))
  {
  }

  lemma QueuesPlaced(s: St, g: Segment)
    requires Steady(s) && g.Untagged? && g.qn != RDMAREQ_Q && Place(s, g).Just?
    ensures g.qn == SEND_Q && s.bufQ != [] && Place(s, g).v.bufQ == s.bufQ
  {
    hide Put, Zeros;
  }

  lemma RequestPlaced(s: St, g: Segment)
    requires Steady(s) && g.Untagged? && g.qn == RDMAREQ_Q && Place(s, g).Just?
    ensures g.mo + |g.data| <= 32 && MayLand(s, g)
    ensures var t := Place(s, g).v;
            && t == s.(rrQ := t.rrQ) && t.rrQ != [] && |t.rrQ[0]| == REQ_SZ
            && DecodeReq(t.rrQ[0]) == FirstRequest(s, g.mo, g.data)
  {
    hide Put, Zeros, DecodeReq;
    PlaceExactly(s, g);
    if s.rrQ != [] {
      assert s.rrQ[0] in s.rrQ;
    }
  }

  /** Processing never writes to memory. */
  lemma ProcessSpares(c: Config, s: St, g: Segment)
    requires ConfigOk(c) && Steady(s)
    ensures Process(c, s, g).Just? ==> Process(c, s, g).v.mem == s.mem && Process(c, s, g).v.tags == s.tags
  {
    hide DecodeReq, Arrive, Total, Mark, Ready, ProduceAll, Produced, Msn, Segments, TagGrants, Sound;
  }

  /** The last segment of a message to the send queue completes the oldest posted receive,
      under its id, with the operation that the opcode stands for at the sink and the number
      of bytes received in all; with no room on the queue the completion is lost. */
  lemma RecvCompletes(c: Config, s: St, g: Segment)
    requires ConfigOk(c) && Steady(s) && g.Untagged? && g.qn == 0 && g.last && Receive(c, s, g).Just?
    ensures var t := Receive(c, s, g).v;
            var op := match g.op case Send => OpRecv case RdmaReadResp => OpRdmaRead case _ => OpErr;
            var before := Lookup(s.outstUntag, MsgKey(0, g.msn));
            var len := |g.data| + if before.None? then 0 else before.len;
            && s.bufQ != [] && t.bufQ == s.bufQ[1..]
            && t.rcq == if |s.rcq| < c.rcqRoom then s.rcq + [Cqe(op, s.bufQ[0].id, len)] else s.rcq
  {
    hide Sound, Put, Arrive, Lookup, Msn;
  }

  // ----- bytes nobody may write to -----

  /** No posted receive and no tag with write access has this address. */
  predicate OutOfReach(s: St, a: nat) {
    && (forall w :: w in s.bufQ ==> !(w.addr <= a < w.addr + w.len))
    && (forall k :: k in s.tags && s.tags[k].write ==> !(s.tags[k].start <= a < s.tags[k].end))
  }

  /** For a tagged segment with the opcode of a read request the source asks for read access
      alone, and then writes to the tag. */
  predicate ReadOnlyWrite(s: St, g: Segment, a: nat) {
    && g.Tagged? && g.op == RdmaReadReq && g.to <= a < g.to + |g.data|
    && InTag(s, g.stag, g.to, |g.data|) && s.tags[g.stag].read && !s.tags[g.stag].write
  }

  /** A poll writes to such a byte only then. */
  lemma ReceiveSpares(c: Config, s: St, g: Segment, a: nat)
    requires ConfigOk(c) && Steady(s) && a < |s.mem| && OutOfReach(s, a)
    ensures var r := Receive(c, s, g);
            r.Just? ==> |r.v.mem| == |s.mem| && (r.v.mem[a] == s.mem[a] || ReadOnlyWrite(s, g, a))
  {
    hide Process, Place, Sound;
    PlaceSteady(s, g);
    if Place(s, g).Just? {
      PlaceWrites(s, g);
      PlaceExactly(s, g);
      ProcessSpares(c, Place(s, g).v, g);
      if g.Untagged? && s.bufQ != [] {
        assert s.bufQ[0] in s.bufQ;
      }
    }
  }

  /** And then it does: the first half of such a message is written where only reading was
      allowed. */
  lemma ReadOnlyWritten(c: Config, s: St, b: byte)
    requires ConfigOk(c) && Steady(s) && 7 in s.tags && s.tags[7] == Stag(0, 4, true, false)
    ensures 4 <= |s.mem|
    ensures var r := Receive(c, s, Tagged(7, 0, RdmaReadReq, false, [b])); r.Just? && |r.v.mem| > 0 && r.v.mem[0] == b
  {
    hide Process, Place, Sound, MayLand, MayFinish;
    var g := Tagged(7, 0, RdmaReadReq, false, [b]);
    TagsInside(s, 7);
    PlaceSteady(s, g);
    PlaceExactly(s, g);
    ReceiveExactly(c, s, g);
    assert MayLand(s, g) by { LandsReadOnly(s, g); }
    PlaceWrites(s, g);
    ProcessSpares(c, Place(s, g).v, g);
    assert Place(s, g).v.mem[0 + 0] == [b][0];
  }

  lemma TagsInside(s: St, stag: nat)
    requires Sound(s) && stag in s.tags
    ensures s.tags[stag].end <= |s.mem|
  {
  }

  lemma LandsReadOnly(s: St, g: Segment)
    requires g.Tagged? && g.op == RdmaReadReq && InTag(s, g.stag, g.to, |g.data|) && s.tags[g.stag].read
    ensures MayLand(s, g)
  {
  }

  // ----- calls that are refused -----

  /** A send, a write, a read and a post are refused exactly when their completion queue is
      full, and otherwise change just this. */
  lemma CallsRefused(c: Config, s: St, data: Bytes, id: nat, stag: nat, to: nat, r: ReadReq, w: Wrd)
    requires ConfigOk(c)
    ensures DoSend(c, s, data, id) == Nothing <==> |s.scq| >= c.scqRoom
    ensures DoWrite(c, s, data, stag, to, id) == Nothing <==> |s.scq| >= c.scqRoom
    ensures DoRead(c, s, r, id) == Nothing <==> |s.scq| >= c.scqRoom
    ensures DoPost(c, s, w) == Nothing <==> |s.rcq| >= c.rcqRoom
  {
    hide Segments, EncodeReq;
  }
}
