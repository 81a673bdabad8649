/** What a run leaves alone: memory that no posted receive and no writable tag covers. */
module RdmapSpared {
  import opened MpaLayout
  import opened DdpSegments
  import opened DdpReassembly
  import opened CompletionQueue
  import opened Stags
  import opened Rdmap
  import opened RdmapPlacement
  import opened RdmapWorld
  import opened RdmapPoll
  import opened RdmapPolls
  import opened RdmapRun
  import opened RdmapQueues
  import opened RdmapTheorems

  /** This end's memory holds the byte it held. */
  predicate Keeps1(e: End, f: End, a: nat) { |f.s.mem| == |e.s.mem| && (a < |e.s.mem| ==> f.s.mem[a] == e.s.mem[a]) }

  /** The segments of a run are never tagged read requests. */
  lemma NeverReadOnly(e: End, p: End, a: nat)
    requires Inv(e, p) && e.h.pos < |p.s.sent|
    ensures !ReadOnlyWrite(e.s, p.s.sent[e.h.pos], a)
  {
    hide Pending, Pick, Flow, MsgsOk, Matched, RecvCqes, Msn, IssuedOk, ServedOk, ReadsDone, Waiting, Reads,
         OnlyReads, OneTagEach, PartPlaced, Link;
    var m, b := ReadNext(e, p);
  }

  lemma PollSpares(e: End, p: End, a: nat)
    requires EndOk(e) && Inv(e, p) && OutOfReach(e.s, a)
    ensures Act(e, p.s.sent, Poll).Just? ==> Keeps1(e, Act(e, p.s.sent, Poll).v, a)
  {
    hide Inv, Receive, Note, Steady, OutOfReach, Legal, ReadOnlyWrite;
    if e.h.pos < |p.s.sent| {
      NeverReadOnly(e, p, a);
      ReceiveLength(e.c, e.s, p.s.sent[e.h.pos]);
      if a < |e.s.mem| {
        ReceiveSpares(e.c, e.s, p.s.sent[e.h.pos], a);
      }
    }
  }

  lemma ReceiveLength(c: Config, s: St, g: Segment)
    requires ConfigOk(c) && Steady(s)
    ensures Receive(c, s, g).Just? ==> |Receive(c, s, g).v.mem| == |s.mem|
  {
    hide Process, Place, Sound;
    PlaceSteady(s, g);
    if Place(s, g).Just? {
      PlaceWrites(s, g);
      ProcessSpares(c, Place(s, g).v, g);
    }
  }

  /** At a poll nobody may write to the byte; and the user does not. */
  predicate StepSpares(e: End, act: Action, a: nat) {
    match act
    case Poll => OutOfReach(e.s, a)
    case Store(at, data) => !(at <= a < at + |data|)
    case _ => true
  }

  lemma ActSpares(e: End, p: End, act: Action, a: nat)
    requires EndOk(e) && Inv(e, p) && StepSpares(e, act, a)
    ensures Act(e, p.s.sent, act).Just? ==> Keeps1(e, Act(e, p.s.sent, act).v, a)
  {
    hide Inv, Receive, Note, Steady, OutOfReach, Segments, EncodeReq, Msn, Put;
    match act {
      case Poll => PollSpares(e, p, a);
      case Store(at, data) =>
        if at + |data| <= |e.s.mem| {
          PutWrites(e.s.mem, at, data);
        }
      case _ =>
    }
  }

  /** Over the whole run, at every step of this end. */
  predicate RunSpares(w: World, steps: seq<Step>, atA: bool, a: nat)
    decreases steps
  {
    steps == []
    || ((steps[0].atA == atA ==> StepSpares(EndAt(w, atA), steps[0].act, a))
        && (Take(w, steps[0]).Nothing? || RunSpares(Take(w, steps[0]).v, steps[1..], atA, a)))
  }

  lemma {:induction false} RunKeepsByte(w: World, steps: seq<Step>, atA: bool, a: nat)
    requires WorldOk(w) && RunLegal(w, steps) && RunSpares(w, steps, atA, a)
    ensures Run(w, steps).Just? ==> Keeps1(EndAt(w, atA), EndAt(Run(w, steps).v, atA), a)
    decreases steps
  {
    hide Inv, Legal, Act, EndOk, StepSpares;
    if steps != [] {
      var s := steps[0];
      InvBothWays(w.a, w.b);
      TakeKeeps(w, s);
      if s.atA == atA {
        ActSpares(EndAt(w, atA), EndAt(w, !atA), s.act, a);
      }
      if Take(w, s).Just? {
        RunKeepsByte(Take(w, s).v, steps[1..], atA, a);
      }
    }
  }

  /** Whatever the peer sends, in any run: a byte that is in no posted receive and in no tag
      with write access when this end polls, and that its user does not store to, has the
      value it had at the start. */
  lemma MemorySpared(ca: Config, ma: Bytes, cb: Config, mb: Bytes, steps: seq<Step>, w: World, atA: bool, a: nat)
    requires Reached(ca, ma, cb, mb, steps, w)
    requires RunSpares(World(Start(ca, ma), Start(cb, mb)), steps, atA, a)
    ensures var m0, m := if atA then ma else mb, EndAt(w, atA).s.mem;
            |m| == |m0| && (a < |m0| ==> m[a] == m0[a])
  {
    hide Run, RunLegal, RunSpares, WorldOk, GoodConfig;
    Fresh(ca, ma, cb, mb);
    RunKeepsByte(World(Start(ca, ma), Start(cb, mb)), steps, atA, a);
  }
}
