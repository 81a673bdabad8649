/** One poll: the next segment of the message being received, placed and accounted for. */
module RdmapPoll {
  import opened MpaLayout
  import opened DdpSegments
  import opened DdpReassembly
  import opened CompletionQueue
  import opened Stags
  import opened Rdmap
  import opened RdmapWorld
  import opened RdmapGrowth

  // ----- the next segment -----

  predicate Final(m: Msg, off: nat, max: nat)
    requires off <= |m.data|
  {
    |m.data| - off <= max
  }

  function Chunk(m: Msg, off: nat, max: nat): (b: Bytes)
    requires off <= |m.data|
    ensures off + |b| <= |m.data| && b == m.data[off..off + |b|]
    ensures Final(m, off, max) <==> off + |b| == |m.data| && |b| <= max
  {
    if Final(m, off, max) then m.data[off..] else m.data[off..off + max]
  }

  lemma FlowIsPending(c: Config, out: seq<Msg>, n: nat)
    requires GoodConfig(c) && MsgsOk(out) && n <= |out|
    ensures Flow(c, out[n..]) == Pending(c, out, n, 0)
  {
    hide Cut, Limit, Segments, MsgOk;
    if n < |out| {
      assert MsgOkAt(out, n);
      MsgSegments(c, out[n]);
      assert out[n..][1..] == out[n + 1..];
    }
  }

  lemma NextSegment(c: Config, out: seq<Msg>, done: nat, off: nat, rest: seq<Segment>)
    requires GoodConfig(c) && MsgsOk(out) && done <= |out| && (off > 0 ==> done < |out|)
    requires done < |out| ==> off <= |out[done].data|
    requires rest == Pending(c, out, done, off) && rest != []
    ensures done < |out|
    ensures var m := out[done];
            var max := Limit(c, m.d);
            var b := Chunk(m, off, max);
            && rest[0] == Seg(m.d, off, Final(m, off, max), b)
            && (Final(m, off, max) ==> rest[1..] == Pending(c, out, done + 1, 0))
            && (!Final(m, off, max) ==> off + |b| < |m.data| && |b| > 0 && rest[1..] == Pending(c, out, done, off + |b|))
  {
    hide Limit, Seg, MsgsOk, Flow;
    var m := out[done];
    var max := Limit(c, m.d);
    FlowIsPending(c, out, done + 1);
    var cut := Cut(m.d, max, m.data, off);
    assert rest == cut + Flow(c, out[done + 1..]);
    assert rest[1..] == cut[1..] + Flow(c, out[done + 1..]);
    if Final(m, off, max) {
      assert cut[1..] == [];
      assert [] + Flow(c, out[done + 1..]) == Flow(c, out[done + 1..]);
    } else {
      assert cut[1..] == Cut(m.d, max, m.data, off + max);
    }
  }

  // ----- placement -----

  lemma PutExtends(mem: Bytes, at: nat, data: Bytes, off: nat, b: Bytes)
    requires at + off + |b| <= |mem| && off + |b| <= |data|
    requires mem[at..at + off] == data[..off] && b == data[off..off + |b|]
    ensures Put(mem, at + off, b)[at..at + off + |b|] == data[..off + |b|]
  {
    var m := Put(mem, at + off, b);
    assert m[at..at + off] == mem[at..at + off];
    assert m[at + off..at + off + |b|] == b;
    assert m[at..at + off + |b|] == m[at..at + off] + m[at + off..at + off + |b|];
    assert data[..off + |b|] == data[..off] + data[off..off + |b|];
  }

  lemma PlaceSend(s: St, m: Msg, off: nat, last: bool, b: Bytes)
    requires Steady(s) && Is(KSend, m) && off + |b| <= |m.data| && b == m.data[off..off + |b|]
    requires off > 0 ==> PartPlaced(s, m, off)
    ensures Place(s, Seg(m.d, off, last, b)).Just? <==> s.bufQ != [] && off + |b| <= s.bufQ[0].len
    ensures Place(s, Seg(m.d, off, last, b)).Just? ==>
              var t := Place(s, Seg(m.d, off, last, b)).v;
              t == s.(mem := t.mem) && |t.mem| == |s.mem| && PartPlaced(t, m, off + |b|)
  {
    hide Put;
    if s.bufQ != [] && off + |b| <= s.bufQ[0].len {
      assert s.bufQ[0] in s.bufQ;
      PutExtends(s.mem, s.bufQ[0].addr, m.data, off, b);
    }
  }

  lemma PlaceTagged(s: St, m: Msg, off: nat, last: bool, b: Bytes)
    requires Steady(s) && m.d.ToTag? && MsgOk(m) && off + |b| <= |m.data| && b == m.data[off..off + |b|]
    requires off > 0 ==> PartPlaced(s, m, off)
    ensures Place(s, Seg(m.d, off, last, b)).Just? <==> TagGrants(s, m.d.stag, m.d.to + off, |b|, m.d.op)
    ensures Place(s, Seg(m.d, off, last, b)).Just? ==>
              var t := Place(s, Seg(m.d, off, last, b)).v;
              t == s.(mem := t.mem) && |t.mem| == |s.mem| && PartPlaced(t, m, off + |b|)
  {
    hide Put;
    if TagGrants(s, m.d.stag, m.d.to + off, |b|, m.d.op) {
      PutExtends(s.mem, m.d.to, m.data, off, b);
    }
  }

  lemma PutWhole(b: Bytes)
    requires |b| == REQ_SZ
    ensures Put(Zeros(REQ_SZ), 0, b) == b
  {
  }

  lemma PlaceRequest(s: St, m: Msg, last: bool)
    requires Steady(s) && Is(KRead, m) && MsgOk(m) && s.rrQ == []
    ensures Place(s, Seg(m.d, 0, last, m.data)) == Just(s.(rrQ := [m.data]))
  {
    hide Put, Zeros;
    PutWhole(m.data);
    assert [] + [m.data] == [m.data];
  }

  // ----- the list of partly received messages -----

  lemma PartArrive(m: Msg, off: nat, n: nat, last: bool)
    requires !last ==> off + n > 0
    ensures var list := PartList(m, off, m.d.ToTag?);
            var a := Arrival(KeyOf(m.d), n, last);
            && Arrive(list, a) == (if last then [] else PartList(m, off + n, m.d.ToTag?))
            && Total(list, a) == off + n
  {
    var list := PartList(m, off, m.d.ToTag?);
    if off > 0 {
      assert IndexOf(list, KeyOf(m.d)) == 0;
    }
  }

  /** What a poll reads. */
  predicate Next(e: End, p: End, m: Msg, b: Bytes) {
    && e.h.done < |p.h.out| && m == p.h.out[e.h.done] && e.h.off + |b| <= |m.data|
    && b == m.data[e.h.off..e.h.off + |b|] && (e.h.off > 0 ==> e.h.off < |m.data|)
    && (Is(KRead, m) ==> e.h.off == 0 && b == m.data)
  }

  function TheSeg(e: End, m: Msg, b: Bytes): Segment {
    Seg(m.d, e.h.off, e.h.off + |b| == |m.data|, b)
  }

  lemma ReadNext(e: End, p: End) returns (m: Msg, b: Bytes)
    requires Link(p, e) && e.h.pos < |p.s.sent|
    ensures Next(e, p, m, b) && MsgOk(m) && p.s.sent[e.h.pos] == TheSeg(e, m, b)
    ensures e.h.off + |b| == |m.data| ==> p.s.sent[e.h.pos + 1..] == Pending(p.c, p.h.out, e.h.done + 1, 0)
    ensures e.h.off + |b| < |m.data| ==>
              |b| > 0 && !Is(KRead, m) && p.s.sent[e.h.pos + 1..] == Pending(p.c, p.h.out, e.h.done, e.h.off + |b|)
  {
    hide Pending, Seg, Flow, MsgsOk, Pick, Matched, RecvCqes, Msn;
    var rest := p.s.sent[e.h.pos..];
    NextSegment(p.c, p.h.out, e.h.done, e.h.off, rest);
    m := p.h.out[e.h.done];
    OneMsgOk(p.h.out, e.h.done);
    var max := Limit(p.c, m.d);
    b := Chunk(m, e.h.off, max);
    assert rest[0] == p.s.sent[e.h.pos] && rest[1..] == p.s.sent[e.h.pos + 1..];
    if Is(KRead, m) {
      NoPartOfRequest(e.s, m, e.h.off);
      assert b == m.data;
    }
  }

  lemma OneMsgOk(out: seq<Msg>, i: nat)
    requires MsgsOk(out) && i < |out|
    ensures MsgOk(out[i])
  {
    assert MsgOkAt(out, i);
  }

  lemma NoPartOfRequest(s: St, m: Msg, off: nat)
    requires Is(KRead, m) && off <= |m.data| && (off > 0 ==> PartPlaced(s, m, off))
    ensures off == 0
  {
  }
}
