/** What a new message at one end leaves as it was for both ends. */
module RdmapGrowth {
  import opened MpaLayout
  import opened DdpSegments
  import opened DdpReassembly
  import opened CompletionQueue
  import opened Stags
  import opened Rdmap
  import opened RdmapWorld

  lemma PickPush(out: seq<Msg>, m: Msg, k: Kind)
    ensures Pick(out + [m], k) == Pick(out, k) + if Is(k, m) then [m] else []
  {
    assert (out + [m])[..|out|] == out;
  }

  lemma PickNext(out: seq<Msg>, n: nat, k: Kind)
    requires n < |out|
    ensures Pick(out[..n + 1], k) == Pick(out[..n], k) + if Is(k, out[n]) then [out[n]] else []
  {
    assert out[..n + 1] == out[..n] + [out[n]];
    PickPush(out[..n], out[n], k);
  }

  lemma {:induction false} PickPrefix(out: seq<Msg>, n: nat, k: Kind)
    requires n <= |out|
    ensures Pick(out[..n], k) <= Pick(out, k)
    decreases |out|
  {
    if n < |out| {
      var last := |out| - 1;
      assert out[..last][..n] == out[..n];
      PickPrefix(out[..last], n, k);
    } else {
      assert out[..n] == out;
    }
  }

  lemma {:induction false} FlowPush(c: Config, out: seq<Msg>, m: Msg)
    requires ConfigOk(c)
    ensures Flow(c, out + [m]) == Flow(c, out) + Segments(m.d, Limit(c, m.d), m.data)
  {
    hide Segments, Limit;
    if out == [] {
      assert out + [m] == [m] && [m][1..] == [];
      assert Flow(c, []) == [] && [] + Segments(m.d, Limit(c, m.d), m.data) == Segments(m.d, Limit(c, m.d), m.data);
      assert Flow(c, [m]) == Segments(m.d, Limit(c, m.d), m.data) + [];
    } else {
      assert (out + [m])[1..] == out[1..] + [m];
      FlowPush(c, out[1..], m);
    }
  }

  lemma MsgSegments(c: Config, m: Msg)
    requires ConfigOk(c) && MsgOk(m)
    ensures Segments(m.d, Limit(c, m.d), m.data) == Cut(m.d, Limit(c, m.d), m.data, 0)
  {
    hide Cut;
  }

  lemma PendingPush(c: Config, out: seq<Msg>, m: Msg, done: nat, off: nat)
    requires GoodConfig(c) && done <= |out| && (off > 0 ==> done < |out|) && MsgOk(m)
    requires done < |out| ==> off <= |out[done].data|
    ensures Pending(c, out + [m], done, off)
         == Pending(c, out, done, off) + Segments(m.d, Limit(c, m.d), m.data)
  {
    hide Cut, Limit, Segments;
    if done == |out| {
      MsgSegments(c, m);
      assert (out + [m])[done + 1..] == [] && (out + [m])[done] == m;
      NoFlow(c);
      var s := Segments(m.d, Limit(c, m.d), m.data);
      assert s + [] == s && [] + s == s;
    } else {
      assert (out + [m])[done + 1..] == out[done + 1..] + [m] && (out + [m])[done] == out[done];
      FlowPush(c, out[done + 1..], m);
    }
  }

  lemma NoFlow(c: Config)
    requires ConfigOk(c)
    ensures Flow(c, []) == []
  {
  }

  lemma MsgsPush(out: seq<Msg>, m: Msg)
    requires MsgsOk(out) && MsgOk(m)
    requires m.d.ToQueue? ==> m.d.msn == Msn(1 + |Pick(out, KUntagged)|)
    ensures MsgsOk(out + [m])
  {
    hide MsgOkAt;
    var o := out + [m];
    forall i | 0 <= i < |o| ensures MsgOkAt(o, i) {
      if i < |out| {
        MsgOkStill(out, m, i);
      } else {
        MsgOkNew(out, m);
      }
    }
  }

  lemma MsgOkStill(out: seq<Msg>, m: Msg, i: nat)
    requires i < |out| && MsgOkAt(out, i)
    ensures MsgOkAt(out + [m], i)
  {
    hide Pick, Msn, MsgOk;
    assert (out + [m])[..i] == out[..i];
  }

  lemma MsgOkNew(out: seq<Msg>, m: Msg)
    requires MsgOk(m) && (m.d.ToQueue? ==> m.d.msn == Msn(1 + |Pick(out, KUntagged)|))
    ensures MsgOkAt(out + [m], |out|)
  {
    hide Pick, Msn, MsgOk;
    assert (out + [m])[..|out|] == out;
  }

  /** p with one more message sent. */
  predicate Grown(p: End, q: End, m: Msg) {
    && ConfigOk(p.c) && q.c == p.c && q.h.out == p.h.out + [m]
    && q.s.sent == p.s.sent + Segments(m.d, Limit(p.c, m.d), m.data)
    && q.s.sendMsn == if m.d.ToQueue? then Msn(p.s.sendMsn + 1) else p.s.sendMsn
  }

  lemma MsnNext(n: nat)
    ensures Msn(Msn(n) + 1) == Msn(n + 1)
  {
  }

  lemma SenderGrown(p: End, q: End, m: Msg)
    requires SenderOk(p) && Grown(p, q, m) && MsgOk(m)
    requires m.d.ToQueue? ==> m.d.msn == p.s.sendMsn
    ensures SenderOk(q)
  {
    hide Segments, Limit, Flow, Pick, MsgOk, Msn, MsgsOk;
    MsgsPush(p.h.out, m);
    FlowPush(p.c, p.h.out, m);
    PickPush(p.h.out, m, KUntagged);
    MsnNext(1 + |Pick(p.h.out, KUntagged)|);
  }

  /** The receiver does not notice yet. */
  lemma LinkGrown(p: End, q: End, m: Msg, e: End)
    requires Link(p, e) && Grown(p, q, m) && MsgOk(m)
    requires m.d.ToQueue? ==> m.d.msn == p.s.sendMsn
    ensures Link(q, e)
  {
    hide Segments, Limit, Flow, Pick, MsgOk, Msn, MsgsOk, PartPlaced, Pending, Matched, RecvCqes;
    SenderGrown(p, q, m);
    assert q.h.out[..e.h.done] == p.h.out[..e.h.done];
    PendingPush(p.c, p.h.out, m, e.h.done, e.h.off);
    if e.h.done < |p.h.out| {
      assert q.h.out[e.h.done] == p.h.out[e.h.done];
    } else {
      NoParts(m);
    }
    var segs := Segments(m.d, Limit(p.c, m.d), m.data);
    assert q.s.sent[e.h.pos..] == p.s.sent[e.h.pos..] + segs;
  }

  lemma NoParts(m: Msg)
    ensures PartList(m, 0, true) == [] && PartList(m, 0, false) == []
  {
  }

  lemma TakeGrown(out: seq<Msg>, m: Msg, n: nat)
    requires n <= |out|
    ensures (out + [m])[..n] == out[..n]
  {
  }

  /** What Reads looks at, on the requester's side, other than its messages. */
  predicate SameReads(e: End, f: End) {
    && f.h.issued == e.h.issued && f.h.readLog == e.h.readLog && f.s.rwrq == e.s.rwrq
    && (!f.h.lostS ==> !e.h.lostS && OnlyReads(f.h.scqTaken + f.s.scq) == OnlyReads(e.h.scqTaken + e.s.scq))
  }

  /** A message of the requester that is no request changes nothing about its reads. */
  lemma ReadsRequesterGrown(e: End, f: End, m: Msg, p: End)
    requires p.h.done <= |e.h.out| && e.h.done <= |p.h.out| && Reads(e, p)
    requires f.h.out == e.h.out + [m] && !Is(KRead, m) && SameReads(e, f)
    requires f.h.done <= |p.h.out| && Pick(p.h.out[..f.h.done], KResp) == Pick(p.h.out[..e.h.done], KResp)
    ensures Reads(f, p)
  {
    hide Pick, IssuedOk, ServedOk, ReadsDone, OnlyReads, RecvCqes, Is;
    PickPush(e.h.out, m, KRead);
    TakeGrown(e.h.out, m, p.h.done);
    assert Pick(e.h.out, KRead) + [] == Pick(e.h.out, KRead);
  }

  /** Nor does a message of the responder that is no response. */
  lemma ReadsResponderGrown(e: End, p: End, q: End, m: Msg)
    requires p.h.done <= |e.h.out| && e.h.done <= |p.h.out| && Reads(e, p)
    requires q.h.out == p.h.out + [m] && !Is(KResp, m)
    requires q.h.done == p.h.done && q.h.served == p.h.served
    ensures Reads(e, q)
  {
    hide Pick, IssuedOk, ServedOk, ReadsDone, OnlyReads, RecvCqes, Is;
    PickPush(p.h.out, m, KResp);
    TakeGrown(p.h.out, m, e.h.done);
    assert Pick(p.h.out, KResp) + [] == Pick(p.h.out, KResp);
  }
}
