/** iwsk_t: the connection object whose fields the DDP and RDMAP layers update in place.
    Every method is the state function of the same name in Rdmap. */
module Iwsk {
  import opened MpaLayout
  import opened DdpSegments
  import opened DdpReassembly
  import opened CompletionQueue
  import opened Stags
  import opened Rdmap
  import opened RdmapPlacement

  class Connection {
    const c: Config
    var mem: Bytes
    var tags: map<nat, Stag>
    var bufQ: seq<Wrd>
    var rrQ: seq<Bytes>
    var rwrq: seq<Rwr>
    var sendMsn: nat
    var recvMsn: nat
    var sinkMsn: nat
    var outstTag: seq<Entry>
    var outstUntag: seq<Entry>
    var scq: seq<Cqe>
    var rcq: seq<Cqe>
    var sent: seq<Segment>

    function State(): St
      reads this
    {
      St(mem, tags, bufQ, rrQ, rwrq, sendMsn, recvMsn, sinkMsn, outstTag, outstUntag, scq, rcq, sent)
    }

    predicate Valid()
      reads this
    {
      ConfigOk(c) && Steady(State())
    }

    /** rdmap_register_sock. */
    constructor (c: Config, mem: Bytes)
      requires ConfigOk(c)
      ensures Valid() && this.c == c
      ensures State() == St(mem, map[], [], [], [], 1, 1, 1, [], [], [], [], [])
    {
      this.c, this.mem, tags := c, mem, map[];
      bufQ, rrQ, rwrq := [], [], [];
      sendMsn, recvMsn, sinkMsn := 1, 1, 1;
      outstTag, outstUntag, scq, rcq, sent := [], [], [], [], [];
    }

    /** The loop of ddp_send_untagged and of ddp_send_tagged; mpa_send appends one FPDU. */
    method SendAll(d: Dest, max: nat, msg: Bytes, numSgmnts: nat)
      requires max > 0
      requires numSgmnts == if d.ToQueue? && msg == [] then 1 else NumSegments(|msg|, max)
      modifies `sent
      ensures sent == old(sent) + Segments(d, max, msg)
    {
      hide Cut, Seg, NumSegments;
      var i, mo := 0, 0;
      NumSegmentsStep(|msg|, max);
      ghost var all := Cut(d, max, msg, 0);
      CutAt(d, max, msg, 0, 0);
      assert sent + all[..0] == sent;
      while i < numSgmnts
        invariant 0 <= i <= numSgmnts && (i < numSgmnts ==> mo == i * max)
        invariant numSgmnts > 0 ==> numSgmnts == |all|
        invariant numSgmnts > 0 ==> sent == old(sent) + all[..i]
        invariant numSgmnts == 0 ==> sent == old(sent)
      {
        CutAt(d, max, msg, 0, i);
        Grow(i, max);
        if numSgmnts - 1 == i {
          sent := sent + [Seg(d, mo, true, msg[mo..])];
        } else {
          sent := sent + [Seg(d, mo, false, msg[mo..mo + max])];
          mo := mo + max;
        }
        assert all[..i + 1] == all[..i] + [all[i]];
        i := i + 1;
      }
      if numSgmnts > 0 {
        assert all[..numSgmnts] == all;
      } else {
        assert old(sent) + [] == old(sent);
      }
    }

    /** ddp_send_untagged. */
    method SendUntagged(msg: Bytes, qn: nat, op: Opcode)
      requires ConfigOk(c)
      modifies `sent, `sendMsn
      ensures State() == Rdmap.SendUntagged(c, old(State()), msg, qn, op)
    {
      hide NumSegments;
      NumSegmentsStep(|msg|, c.maxU);
      var numSgmnts := NumSegments(|msg|, c.maxU);
      if numSgmnts == 0 {
        numSgmnts := 1;
      }
      SendAll(ToQueue(qn, sendMsn, op), c.maxU, msg, numSgmnts);
      sendMsn := Msn(sendMsn + 1);
    }

    /** ddp_send_tagged. */
    method SendTagged(msg: Bytes, op: Opcode, stag: nat, to: nat)
      requires ConfigOk(c)
      modifies `sent
      ensures State() == Rdmap.SendTagged(c, old(State()), msg, op, stag, to)
    {
      SendAll(ToTag(stag, to, op), c.maxT, msg, NumSegments(|msg|, c.maxT));
    }

    /** rdmap_send. */
    method Send(msg: Bytes, id: nat) returns (ok: bool)
      requires Valid()
      modifies this
      ensures Valid() && var r := DoSend(c, old(State()), msg, id); ok == r.Just? && State() == if ok then r.v else old(State())
      ensures ok <==> |old(scq)| < c.scqRoom
      ensures ok ==> scq == old(scq) + [Cqe(OpSend, id, |msg|)]
    {
      hide Segments, EncodeReq, Msn;
      if |scq| >= c.scqRoom {
        return false;
      }
      SendUntagged(msg, SEND_Q, DdpSegments.Send);
      scq := Produced(scq, c.scqRoom, Cqe(OpSend, id, |msg|));
      return true;
    }

    /** rdmap_rdma_write. */
    method RdmaWrite(msg: Bytes, stag: nat, to: nat, id: nat) returns (ok: bool)
      requires Valid()
      modifies this
      ensures Valid() && var r := DoWrite(c, old(State()), msg, stag, to, id);
                         ok == r.Just? && State() == if ok then r.v else old(State())
      ensures ok <==> |old(scq)| < c.scqRoom
      ensures ok ==> scq == old(scq) + [Cqe(OpRdmaWrite, id, |msg|)]
    {
      hide Segments, EncodeReq, Msn;
      if |scq| >= c.scqRoom {
        return false;
      }
      SendTagged(msg, DdpSegments.RdmaWrite, stag, to);
      scq := Produced(scq, c.scqRoom, Cqe(OpRdmaWrite, id, |msg|));
      return true;
    }

    /** rdmap_rdma_read. */
    method RdmaRead(r: ReadReq, id: nat) returns (ok: bool)
      requires Valid()
      modifies this
      ensures Valid() && var t := DoRead(c, old(State()), r, id); ok == t.Just? && State() == if ok then t.v else old(State())
      ensures ok <==> |old(scq)| < c.scqRoom
      ensures ok ==> scq == old(scq) && rwrq == old(rwrq) + [Rwr(id, r.sinkStag, false, 0)]
    {
      hide Segments, EncodeReq, Msn;
      if |scq| >= c.scqRoom {
        return false;
      }
      rwrq := rwrq + [Rwr(id, r.sinkStag, false, 0)];
      SendUntagged(EncodeReq(r), RDMAREQ_Q, RdmaReadReq);
      return true;
    }

    /** rdmap_post_recv. */
    method PostRecv(w: Wrd) returns (ok: bool)
      requires Valid() && w.addr + w.len <= |mem|
      modifies `bufQ
      ensures Valid() && var r := DoPost(c, old(State()), w); ok == r.Just? && State() == if ok then r.v else old(State())
      ensures ok <==> |old(rcq)| < c.rcqRoom
      ensures bufQ == if ok then old(bufQ) + [w] else old(bufQ)
    {
      if |rcq| >= c.rcqRoom {
        return false;
      }
      bufQ := bufQ + [w];
      return true;
    }

    /** ddp_get_sink, with the bytes read into it. */
    method Place(g: Segment) returns (ok: bool)
      requires Valid()
      modifies `mem, `rrQ
      ensures var r := Rdmap.Place(old(State()), g); ok == r.Just? && (ok ==> State() == r.v && Valid())
      ensures ok <==> MayLand(old(State()), g)
      ensures ok && g.Tagged? ==> rrQ == old(rrQ) && Written(old(mem), mem, g.to, g.data)
      ensures ok && g.Untagged? && g.qn == 0 ==>
                rrQ == old(rrQ) && old(bufQ) != [] && Written(old(mem), mem, old(bufQ)[0].addr + g.mo, g.data)
      ensures ok && g.Untagged? && g.qn != 0 ==> mem == old(mem)
    {
      hide Grants, Zeros, Rdmap.Put, MayLand, Written;
      PlaceSteady(State(), g);
      PlaceExactly(State(), g);
      if Rdmap.Place(State(), g).Just? {
        PlaceWrites(State(), g);
      }
      match g {
        case Untagged(qn, msn, mo, op, last, data) =>
          if qn == SEND_Q {
            if bufQ == [] || mo + |data| > bufQ[0].len {
              return false;
            }
            assert bufQ[0] in bufQ;
            mem := Put(mem, bufQ[0].addr + mo, data);
          } else if qn == RDMAREQ_Q {
            if mo + |data| > REQ_SZ {
              return false;
            }
            rrQ := rrQ + [Put(Zeros(REQ_SZ), mo, data)];
          } else {
            return false;
          }
        case Tagged(stag, to, op, last, data) =>
          if !TagGrants(State(), stag, to, |data|, op) {
            return false;
          }
          GrantedFits(State(), stag, to, |data|, op);
          mem := Put(mem, to, data);
      }
      return true;
    }

    /** The second loop: completions in the order of submission. */
    method PopComplete()
      modifies `rwrq, `scq
      ensures var n := Ready(old(rwrq));
              && rwrq == old(rwrq)[n..] && scq == ProduceAll(old(scq), c.scqRoom, old(rwrq)[..n])
    {
      ghost var n, k := Ready(rwrq), 0;
      assert rwrq == old(rwrq)[0..];
      while rwrq != [] && rwrq[0].complete
        invariant k <= n && rwrq == old(rwrq)[k..] && Ready(rwrq) == n - k
        invariant ProduceAll(scq, c.scqRoom, rwrq[..n - k]) == ProduceAll(old(scq), c.scqRoom, old(rwrq)[..n])
        decreases |rwrq|
      {
        assert rwrq[..n - k][1..] == rwrq[1..][..n - k - 1];
        scq := Produced(scq, c.scqRoom, ReadCqe(rwrq[0]));
        rwrq := rwrq[1..];
        k := k + 1;
      }
    }

    /** rdmap_reap_rwr. */
    method ReapRwr(stag: nat, len: nat) returns (ok: bool)
      modifies `rwrq, `scq
      ensures var r := Reap(c, old(State()), stag, len); ok == r.Just? && (ok ==> State() == r.v)
    {
      hide Mark, Known, Ready, ProduceAll;
      rwrq, ok := MarkComplete(rwrq, stag, len);
      if ok {
        PopComplete();
      }
    }

    /** rdmap_tag_recv. */
    method TagRecv(op: Opcode, stag: nat, len: nat) returns (ok: bool)
      modifies `rwrq, `scq
      ensures var r := Rdmap.TagRecv(c, old(State()), op, stag, len); ok == r.Just? && (ok ==> State() == r.v)
    {
      if op == DdpSegments.RdmaWrite {
        return true;
      } else if op == RdmaReadResp {
        ok := ReapRwr(stag, len);
      } else {
        return false;
      }
    }

    method FinishSend(op: Opcode, len: nat) returns (ok: bool)
      modifies `bufQ, `rcq, `sinkMsn
      ensures var r := Rdmap.FinishSend(c, old(State()), op, len); ok == r.Just? && (ok ==> State() == r.v)
    {
      if bufQ == [] {
        return false;
      }
      var d := bufQ[0];
      bufQ := bufQ[1..];
      rcq := Produced(rcq, c.rcqRoom, Cqe(SinkOp(op), d.id, len));
      sinkMsn := Msn(sinkMsn + 1);
      return true;
    }

    method ServeRead(op: Opcode) returns (ok: bool)
      requires Valid()
      modifies `rrQ, `sent, `sinkMsn
      ensures var r := Rdmap.ServeRead(c, old(State()), op); ok == r.Just? && (ok ==> State() == r.v)
    {
      hide Segments, DecodeReq, Grants, Msn;
      if rrQ == [] {
        return false;
      }
      assert rrQ[0] in rrQ;
      var h := DecodeReq(rrQ[0]);
      rrQ := rrQ[1..];
      if !TagGrants(State(), h.srcStag, h.srcTo, h.size, op) {
        return false;
      }
      GrantedFits(State(), h.srcStag, h.srcTo, h.size, op);
      SendTagged(mem[h.srcTo..h.srcTo + h.size], RdmaReadResp, h.sinkStag, h.sinkTo);
      sinkMsn := Msn(sinkMsn + 1);
      return true;
    }

    /** rdmap_untag_recv. */
    method UntagRecv(op: Opcode, qn: nat, len: nat) returns (ok: bool)
      requires Valid()
      modifies `bufQ, `rcq, `rrQ, `sent, `sinkMsn
      ensures var r := Rdmap.UntagRecv(c, old(State()), op, qn, len); ok == r.Just? && (ok ==> State() == r.v)
    {
      hide Rdmap.FinishSend, Rdmap.ServeRead;
      if qn == SEND_Q {
        ok := FinishSend(op, len);
      } else {
        ok := ServeRead(op);
      }
    }

    /** ddp_process_ulpdu. */
    method ProcessUlpdu(g: Segment) returns (ok: bool)
      requires Valid()
      modifies this
      ensures var r := Process(c, old(State()), g); ok == r.Just? && (ok ==> State() == r.v)
    {
      hide Arrive, Total;
      match g {
        case Untagged(qn, msn, mo, op, last, data) =>
          var total;
          outstUntag, total := DdpReassembly.Update(outstUntag, Arrival(MsgKey(qn, msn), |data|, last));
          if last {
            ok := UntagRecv(op, qn, total);
            recvMsn := Msn(recvMsn + 1);
            return;
          }
        case Tagged(stag, to, op, last, data) =>
          var total;
          outstTag, total := DdpReassembly.Update(outstTag, Arrival(TagKey(stag), |data|, last));
          if last {
            ok := TagRecv(op, stag, total);
            return;
          }
      }
      return true;
    }

    /** mpa_recv, for the next segment on the stream. */
    method Receive(g: Segment) returns (ok: bool)
      requires Valid()
      modifies this
      ensures var r := Rdmap.Receive(c, old(State()), g); ok == r.Just? && (ok ==> State() == r.v && Valid())
      ensures ok <==> MayLand(old(State()), g) && (g.last ==> MayFinish(old(State()), g))
    {
      hide Process, Rdmap.Place, MayLand, MayFinish;
      ReceiveSteady(c, State(), g);
      ReceiveExactly(c, State(), g);
      ok := Place(g);
      if ok {
        ok := ProcessUlpdu(g);
      }
    }
  }
}
