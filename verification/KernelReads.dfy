/** rdmap_reap_rwr as the kernel module has it: it stops when the completion queue is full
    and keeps what could not be reported. Set beside the user-space form, which drops it. */
module KernelReads {
  import opened CompletionQueue
  import opened Rdmap

  // ----- the two forms of the second loop -----

  datatype Pop = Pop(q: seq<Rwr>, scq: seq<Cqe>, full: bool)

  function KernelPop(q: seq<Rwr>, scq: seq<Cqe>, room: nat): Pop
    decreases q
  {
    if q == [] || !q[0].complete then Pop(q, scq, false)
    else if |scq| >= room then Pop(q, scq, true)
    else KernelPop(q[1..], scq + [ReadCqe(q[0])], room)
  }

  function UserPop(q: seq<Rwr>, scq: seq<Cqe>, room: nat): Pop {
    var n := Ready(q);
    Pop(q[n..], ProduceAll(scq, room, q[..n]), false)
  }

  /** The reads of one connection, with its completion ring. */
  class ReadQueue {
    var rwrq: seq<Rwr>
    const scq: Ring

    constructor (scq: Ring)
      ensures rwrq == [] && this.scq == scq
    {
      rwrq, this.scq := [], scq;
    }

    /** The second loop, on the ring itself. */
    method PopComplete() returns (full: bool)
      requires scq.Valid()
      modifies `rwrq, scq.cqe, scq`prod
      ensures scq.Valid() && scq.cqe == old(scq.cqe)
      ensures Pop(rwrq, scq.Contents(), full) == KernelPop(old(rwrq), old(scq.Contents()), scq.Room())
    {
      full := false;
      ghost var goal := KernelPop(rwrq, scq.Contents(), scq.Room());
      ghost var room := scq.Room();
      while rwrq != [] && rwrq[0].complete
        invariant scq.Valid() && scq.cqe == old(scq.cqe)
        invariant KernelPop(rwrq, scq.Contents(), room) == goal
        decreases |rwrq|
      {
        var ok := scq.Produce(ReadCqe(rwrq[0]));
        if !ok {
          full := true;
          return;
        }
        rwrq := rwrq[1..];
      }
    }

    /** rdmap_reap_rwr of the kernel module. */
    method Reap(stag: nat, len: nat) returns (found: bool, full: bool)
      requires scq.Valid()
      modifies `rwrq, scq.cqe, scq`prod
      ensures scq.Valid() && scq.cqe == old(scq.cqe) && found == Known(old(rwrq), stag)
      ensures !found ==> rwrq == old(rwrq) && scq.Contents() == old(scq.Contents()) && !full
      ensures found ==>
                Pop(rwrq, scq.Contents(), full)
                == KernelPop(Mark(old(rwrq), stag, len), old(scq.Contents()), scq.Room())
    {
      hide Mark, KernelPop;
      full := false;
      ghost var q := rwrq;
      rwrq, found := MarkComplete(rwrq, stag, len);
      if found {
        full := PopComplete();
      } else {
        MarkUnknown(q, stag, len);
      }
    }
  }

  lemma MarkUnknown(q: seq<Rwr>, stag: nat, len: nat)
    requires !Known(q, stag)
    ensures Mark(q, stag, len) == q
  {
    hide Mark;
    forall k | 0 <= k < |q| ensures Mark(q, stag, len)[k] == q[k] {
      MarkAt(q, stag, len, k);
    }
  }

  // ----- runs: reads submitted, answers in any order, completions consumed -----

  datatype Event = Submit(id: nat, stag: nat) | Answer(stag: nat, len: nat) | Consume

  datatype Run = Run(submitted: seq<nat>, q: seq<Rwr>, scq: seq<Cqe>, taken: seq<Cqe>)

  function Step(r: Run, room: nat, kernel: bool, e: Event): Run {
    match e
    case Submit(id, stag) => r.(submitted := r.submitted + [id], q := r.q + [Rwr(id, stag, false, 0)])
    case Answer(stag, len) =>
      if !Known(r.q, stag) then r
      else
        var m := Mark(r.q, stag, len);
        var p := if kernel then KernelPop(m, r.scq, room) else UserPop(m, r.scq, room);
        r.(q := p.q, scq := p.scq)
    case Consume => if r.scq == [] then r else r.(scq := r.scq[1..], taken := r.taken + [r.scq[0]])
  }

  function Go(r: Run, room: nat, kernel: bool, events: seq<Event>): Run
    decreases events
  {
    if events == [] then r else Go(Step(r, room, kernel, events[0]), room, kernel, events[1..])
  }

  function CqeIds(s: seq<Cqe>): (r: seq<nat>)
    ensures |r| == |s|
    ensures forall k :: 0 <= k < |s| ==> r[k] == s[k].id
  {
    seq(|s|, k requires 0 <= k < |s| => s[k].id)
  }

  function RwrIds(q: seq<Rwr>): (r: seq<nat>)
    ensures |r| == |q|
    ensures forall k :: 0 <= k < |q| ==> r[k] == q[k].id
  {
    seq(|q|, k requires 0 <= k < |q| => q[k].id)
  }

  /** Completions consumed, completions waiting and reads still queued are together the
      reads submitted, in order: none lost, none doubled, none overtaken. */
  predicate Conserved(r: Run) {
    CqeIds(r.taken) + CqeIds(r.scq) + RwrIds(r.q) == r.submitted
  }

  lemma MarkIds(q: seq<Rwr>, stag: nat, len: nat)
    ensures RwrIds(Mark(q, stag, len)) == RwrIds(q)
  {
    hide Mark;
    forall k | 0 <= k < |q| ensures Mark(q, stag, len)[k].id == q[k].id {
      MarkAt(q, stag, len, k);
    }
  }

  lemma IdsMove(scq: seq<Cqe>, q: seq<Rwr>)
    requires q != []
    ensures CqeIds(scq + [ReadCqe(q[0])]) + RwrIds(q[1..]) == CqeIds(scq) + RwrIds(q)
  {
    var a, b := CqeIds(scq + [ReadCqe(q[0])]) + RwrIds(q[1..]), CqeIds(scq) + RwrIds(q);
    assert |a| == |b|;
    forall k | 0 <= k < |a| ensures a[k] == b[k] {
      if k > |scq| {
        assert q[1..][k - |scq| - 1] == q[k - |scq|];
      }
    }
  }

  lemma {:induction false} KernelPopConserves(q: seq<Rwr>, scq: seq<Cqe>, room: nat)
    requires |scq| <= room
    ensures var p := KernelPop(q, scq, room);
            && CqeIds(p.scq) + RwrIds(p.q) == CqeIds(scq) + RwrIds(q)
            && |p.scq| <= room && scq <= p.scq
            && (if p.full then p.q != [] && p.q[0].complete && |p.scq| == room
                else p.q == [] || !p.q[0].complete)
    decreases q
  {
    hide CqeIds, RwrIds;
    if q != [] && q[0].complete && |scq| < room {
      IdsMove(scq, q);
      KernelPopConserves(q[1..], scq + [ReadCqe(q[0])], room);
    }
  }

  lemma Regroup(a: seq<nat>, b: seq<nat>, c: seq<nat>, d: seq<nat>)
    ensures a + b + (c + d) == a + b + c + d && a + (b + c) == a + b + c
  {
  }

  lemma ConsumeIds(taken: seq<Cqe>, scq: seq<Cqe>)
    requires scq != []
    ensures CqeIds(taken + [scq[0]]) + CqeIds(scq[1..]) == CqeIds(taken) + CqeIds(scq)
  {
    var a, b := CqeIds(taken + [scq[0]]) + CqeIds(scq[1..]), CqeIds(taken) + CqeIds(scq);
    assert |a| == |b|;
    forall k | 0 <= k < |a| ensures a[k] == b[k] {
      if k > |taken| {
        assert scq[1..][k - |taken| - 1] == scq[k - |taken|];
      }
    }
  }

  lemma SubmitIds(q: seq<Rwr>, w: Rwr)
    ensures RwrIds(q + [w]) == RwrIds(q) + [w.id]
  {
  }

  lemma StepConserves(r: Run, room: nat, e: Event)
    requires Conserved(r) && |r.scq| <= room
    ensures Conserved(Step(r, room, true, e)) && |Step(r, room, true, e).scq| <= room
  {
    hide CqeIds, RwrIds, Mark, KernelPop;
    match e {
      case Submit(id, stag) =>
        SubmitIds(r.q, Rwr(id, stag, false, 0));
        Regroup(CqeIds(r.taken), CqeIds(r.scq), RwrIds(r.q), [id]);
      case Answer(stag, len) =>
        if Known(r.q, stag) {
          var m := Mark(r.q, stag, len);
          var p := KernelPop(m, r.scq, room);
          MarkIds(r.q, stag, len);
          KernelPopConserves(m, r.scq, room);
          Regroup(CqeIds(r.taken), CqeIds(r.scq), RwrIds(r.q), []);
          Regroup(CqeIds(r.taken), CqeIds(p.scq), RwrIds(p.q), []);
        }
      case Consume =>
        if r.scq != [] {
          ConsumeIds(r.taken, r.scq);
        }
    }
  }

  /** The kernel form conserves reads over every run, whatever the order of the answers,
      however small the queue, and even with sink tags in common. */
  lemma {:induction false} KernelConserves(r: Run, room: nat, events: seq<Event>)
    requires Conserved(r) && |r.scq| <= room
    ensures Conserved(Go(r, room, true, events))
    decreases events
  {
    hide Conserved, Step;
    if events != [] {
      StepConserves(r, room, events[0]);
      KernelConserves(Step(r, room, true, events[0]), room, events[1..]);
    }
  }

  // ----- the two forms compared -----

  lemma ReadyStep(q: seq<Rwr>, scq: seq<Cqe>, room: nat)
    requires q != [] && q[0].complete && |scq| < room
    ensures UserPop(q, scq, room) == UserPop(q[1..], scq + [ReadCqe(q[0])], room)
    ensures Ready(q) == 1 + Ready(q[1..])
  {
    hide ReadCqe;
    var n := Ready(q);
    var done := q[..n];
    assert done[0] == q[0] && done[1..] == q[1..][..n - 1];
    assert q[1..][n - 1..] == q[n..];
  }

  lemma {:induction false} ReadyPops(q: seq<Rwr>, scq: seq<Cqe>, room: nat)
    requires |scq| + Ready(q) <= room
    ensures KernelPop(q, scq, room) == UserPop(q, scq, room)
    decreases q
  {
    hide UserPop, Ready;
    if q != [] && q[0].complete {
      ReadyNone(q, scq, room);
      ReadyStep(q, scq, room);
      ReadyPops(q[1..], scq + [ReadCqe(q[0])], room);
    } else {
      ReadyNone(q, scq, room);
    }
  }

  lemma ReadyNone(q: seq<Rwr>, scq: seq<Cqe>, room: nat)
    ensures q == [] || !q[0].complete ==> UserPop(q, scq, room) == Pop(q, scq, false)
    ensures q != [] && q[0].complete ==> Ready(q) > 0
  {
    assert q[0..] == q;
  }

  lemma {:induction false} ProduceFull(scq: seq<Cqe>, room: nat, done: seq<Rwr>)
    requires |scq| <= room
    ensures |ProduceAll(scq, room, done)| == if |scq| + |done| <= room then |scq| + |done| else room
    decreases done
  {
    if done != [] {
      ProduceFull(Produced(scq, room, ReadCqe(done[0])), room, done[1..]);
    }
  }

  /** With room for all that is ready the two forms do the same; without it, and only then,
      the user-space form loses reads. */
  lemma UserLosesIffFull(q: seq<Rwr>, scq: seq<Cqe>, room: nat)
    requires |scq| <= room
    ensures var u := UserPop(q, scq, room);
            && (|scq| + Ready(q) <= room ==> u == KernelPop(q, scq, room))
            && (|scq| + Ready(q) <= room <==> CqeIds(u.scq) + RwrIds(u.q) == CqeIds(scq) + RwrIds(q))
  {
    hide CqeIds, RwrIds, KernelPop;
    var n := Ready(q);
    ProduceFull(scq, room, q[..n]);
    if |scq| + n <= room {
      ReadyPops(q, scq, room);
      KernelPopConserves(q, scq, room);
    } else {
      IdsLength(ProduceAll(scq, room, q[..n]), q[n..]);
      IdsLength(scq, q);
    }
  }

  lemma IdsLength(scq: seq<Cqe>, q: seq<Rwr>)
    ensures |CqeIds(scq) + RwrIds(q)| == |scq| + |q|
  {
  }

  // ----- lengths, for answers in any order with one tag each -----

  /** The answer to a tag among these events. */
  function AnswerTo(past: seq<Event>, stag: nat): Event {
    if past == [] then Consume
    else
      var e := past[|past| - 1];
      if e.Answer? && e.stag == stag then e else AnswerTo(past[..|past| - 1], stag)
  }

  /** A read as it should stand: marked with its own answer's length, or still pending. */
  function Expected(w: Rwr, past: seq<Event>): Rwr {
    var a := AnswerTo(past, w.stag);
    if a.Answer? then w.(complete := true, len := a.len) else w
  }

  /** With every read's tag its own, and answered at most once, after it was asked for. */
  predicate Orderly(asked: seq<Rwr>, past: seq<Event>, e: Event) {
    match e
    case Submit(id, stag) => !Known(asked, stag) && !AnswerTo(past, stag).Answer?
    case Answer(stag, len) => Known(asked, stag) && !AnswerTo(past, stag).Answer?
    case Consume => true
  }

  function Asked(asked: seq<Rwr>, e: Event): seq<Rwr> {
    match e
    case Submit(id, stag) => asked + [Rwr(id, stag, false, 0)]
    case _ => asked
  }

  predicate Fresh(asked: seq<Rwr>) {
    && (forall k :: 0 <= k < |asked| ==> !asked[k].complete)
    && (forall i, j :: 0 <= i < j < |asked| ==> asked[i].stag != asked[j].stag)
  }

  predicate DoneRight(asked: seq<Rwr>, past: seq<Event>, done: seq<Cqe>) {
    && |done| <= |asked|
    && forall k :: 0 <= k < |done| ==>
         Expected(asked[k], past).complete && done[k] == ReadCqe(Expected(asked[k], past))
  }

  predicate QueueRight(asked: seq<Rwr>, past: seq<Event>, q: seq<Rwr>, n: nat) {
    && n + |q| == |asked|
    && forall k :: 0 <= k < |q| ==> q[k] == Expected(asked[n + k], past)
  }

  /** Completions are the first reads asked for, in order, each with its own answer's
      length; the queue is the rest. */
  predicate Right(asked: seq<Rwr>, past: seq<Event>, r: Run) {
    && Fresh(asked) && DoneRight(asked, past, r.taken + r.scq)
    && QueueRight(asked, past, r.q, |r.taken + r.scq|)
  }

  lemma AnswerPush(past: seq<Event>, e: Event, stag: nat)
    ensures AnswerTo(past + [e], stag) == if e.Answer? && e.stag == stag then e else AnswerTo(past, stag)
  {
    assert (past + [e])[..|past|] == past;
  }

  lemma ExpectedPush(past: seq<Event>, e: Event, w: Rwr)
    ensures Expected(w, past + [e]) ==
            if e.Answer? && e.stag == w.stag then w.(complete := true, len := e.len) else Expected(w, past)
    ensures Expected(w, past).stag == w.stag
  {
    hide AnswerTo;
    AnswerPush(past, e, w.stag);
  }

  lemma SubmitRight(asked: seq<Rwr>, past: seq<Event>, r: Run, id: nat, stag: nat)
    requires Right(asked, past, r) && Orderly(asked, past, Submit(id, stag))
    ensures Right(asked + [Rwr(id, stag, false, 0)], past + [Submit(id, stag)], Step(r, 0, true, Submit(id, stag)))
  {
    hide Expected, AnswerTo;
    var w := Rwr(id, stag, false, 0);
    var next, past2 := asked + [w], past + [Submit(id, stag)];
    forall k | 0 <= k < |asked| ensures Expected(next[k], past2) == Expected(asked[k], past) {
      ExpectedPush(past, Submit(id, stag), asked[k]);
    }
    ExpectedPush(past, Submit(id, stag), w);
    NoAnswer(w, past);
  }

  lemma NoAnswer(w: Rwr, past: seq<Event>)
    requires !AnswerTo(past, w.stag).Answer?
    ensures Expected(w, past) == w
  {
  }

  /** An answer marks its own read; reads already reported keep what they had. */
  lemma MarkRight(asked: seq<Rwr>, past: seq<Event>, r: Run, stag: nat, len: nat)
    requires Right(asked, past, r) && Orderly(asked, past, Answer(stag, len))
    ensures DoneRight(asked, past + [Answer(stag, len)], r.taken + r.scq)
    ensures QueueRight(asked, past + [Answer(stag, len)], Mark(r.q, stag, len), |r.taken + r.scq|)
  {
    hide Expected, AnswerTo, Mark;
    var n, past2, e := |r.taken + r.scq|, past + [Answer(stag, len)], Answer(stag, len);
    forall k | 0 <= k < n ensures Expected(asked[k], past2) == Expected(asked[k], past) {
      ExpectedPush(past, e, asked[k]);
      if asked[k].stag == stag {
        NoAnswer(asked[k], past);
      }
    }
    forall k | 0 <= k < |r.q| ensures Mark(r.q, stag, len)[k] == Expected(asked[n + k], past2) {
      ExpectedPush(past, e, asked[n + k]);
      MarkAt(r.q, stag, len, k);
      if asked[n + k].stag == stag {
        NoAnswer(asked[n + k], past);
      }
    }
  }

  lemma {:induction false} PopRight(asked: seq<Rwr>, past: seq<Event>, taken: seq<Cqe>, q: seq<Rwr>, scq: seq<Cqe>, room: nat)
    requires DoneRight(asked, past, taken + scq) && QueueRight(asked, past, q, |taken + scq|)
    ensures var p := KernelPop(q, scq, room);
            DoneRight(asked, past, taken + p.scq) && QueueRight(asked, past, p.q, |taken + p.scq|)
    decreases q
  {
    hide Expected;
    if q != [] && q[0].complete && |scq| < room {
      var s := scq + [ReadCqe(q[0])];
      assert taken + s == taken + scq + [ReadCqe(q[0])];
      assert q[0] == Expected(asked[|taken + scq| + 0], past);
      forall k | 0 <= k < |q[1..]| ensures q[1..][k] == Expected(asked[|taken + s| + k], past) {
        assert q[1..][k] == q[k + 1] == Expected(asked[|taken + scq| + (k + 1)], past);
      }
      PopRight(asked, past, taken, q[1..], s, room);
    }
  }

  lemma AnswerKnown(asked: seq<Rwr>, past: seq<Event>, r: Run, stag: nat, len: nat)
    requires Right(asked, past, r) && Orderly(asked, past, Answer(stag, len))
    ensures Known(r.q, stag)
  {
    hide Expected, AnswerTo;
    var k :| 0 <= k < |asked| && asked[k].stag == stag;
    NoAnswer(asked[k], past);
    var n := |r.taken + r.scq|;
    assert k >= n;
    ExpectedPush(past, Consume, asked[k]);
    assert r.q[k - n] == Expected(asked[n + (k - n)], past);
  }

  lemma StepRight(asked: seq<Rwr>, past: seq<Event>, r: Run, room: nat, e: Event)
    requires Right(asked, past, r) && Orderly(asked, past, e)
    ensures Right(Asked(asked, e), past + [e], Step(r, room, true, e))
  {
    hide Expected, AnswerTo, KernelPop, Mark, Known;
    match e {
      case Submit(id, stag) => SubmitRight(asked, past, r, id, stag);
      case Answer(stag, len) =>
        AnswerKnown(asked, past, r, stag, len);
        MarkRight(asked, past, r, stag, len);
        PopRight(asked, past + [e], r.taken, Mark(r.q, stag, len), r.scq, room);
      case Consume =>
        if r.scq != [] {
          assert r.taken + [r.scq[0]] + r.scq[1..] == r.taken + r.scq;
        }
        forall k | 0 <= k < |asked| ensures Expected(asked[k], past + [e]) == Expected(asked[k], past) {
          ExpectedPush(past, e, asked[k]);
        }
    }
  }

  predicate AllOrderly(asked: seq<Rwr>, past: seq<Event>, events: seq<Event>)
    decreases events
  {
    events == []
    || (Orderly(asked, past, events[0]) && AllOrderly(Asked(asked, events[0]), past + [events[0]], events[1..]))
  }

  function AskedAll(asked: seq<Rwr>, events: seq<Event>): seq<Rwr>
    decreases events
  {
    if events == [] then asked else AskedAll(Asked(asked, events[0]), events[1..])
  }

  /** For any order of answers, and any queue size, the completions are a prefix of the
      reads in the order they were submitted, each with the length of its own answer. */
  lemma {:induction false} CompletionOrder(asked: seq<Rwr>, past: seq<Event>, r: Run, room: nat, events: seq<Event>)
    requires Right(asked, past, r) && AllOrderly(asked, past, events)
    ensures Right(AskedAll(asked, events), past + events, Go(r, room, true, events))
    decreases events
  {
    hide Right, Orderly, Step;
    if events == [] {
      assert past + events == past;
    } else {
      StepRight(asked, past, r, room, events[0]);
      CompletionOrder(Asked(asked, events[0]), past + [events[0]], Step(r, room, true, events[0]), room, events[1..]);
      assert past + [events[0]] + events[1..] == past + events;
    }
  }

  // ----- runs of the user-space form -----

  /** At this event the completion queue has room for all that gets ready. */
  predicate RoomFor(r: Run, room: nat, e: Event) {
    e.Answer? && Known(r.q, e.stag) ==> |r.scq| + Ready(Mark(r.q, e.stag, e.len)) <= room
  }

  /** At every event of the run it has. */
  predicate Roomy(r: Run, room: nat, events: seq<Event>)
    decreases events
  {
    events == [] || (RoomFor(r, room, events[0]) && Roomy(Step(r, room, false, events[0]), room, events[1..]))
  }

  lemma SameStep(r: Run, room: nat, e: Event)
    requires RoomFor(r, room, e)
    ensures Step(r, room, false, e) == Step(r, room, true, e)
  {
    hide Mark, Ready, KernelPop, UserPop;
    if e.Answer? && Known(r.q, e.stag) {
      ReadyPops(Mark(r.q, e.stag, e.len), r.scq, room);
      UserParts(Mark(r.q, e.stag, e.len), r.scq, room);
    }
  }

  lemma UserParts(q: seq<Rwr>, scq: seq<Cqe>, room: nat)
    ensures UserPop(q, scq, room) == Pop(q[Ready(q)..], ProduceAll(scq, room, q[..Ready(q)]), false)
  {
  }

  /** As long as there is room the two forms run alike. */
  lemma {:induction false} UserIsKernel(r: Run, room: nat, events: seq<Event>)
    requires Roomy(r, room, events)
    ensures Go(r, room, false, events) == Go(r, room, true, events)
    decreases events
  {
    hide Step, RoomFor;
    if events != [] {
      SameStep(r, room, events[0]);
      UserIsKernel(Step(r, room, false, events[0]), room, events[1..]);
    }
  }

  /** Reads that are neither queued nor reported. */
  function Missing(r: Run): int { |r.submitted| - (|r.taken| + |r.scq| + |r.q|) }

  lemma StepMissing(r: Run, room: nat, e: Event)
    requires |r.scq| <= room
    ensures var s := Step(r, room, false, e);
            && |s.scq| <= room && Missing(s) >= Missing(r)
            && (Missing(s) == Missing(r) <==> RoomFor(r, room, e))
  {
    hide Mark, Ready, UserPop, ProduceAll;
    match e {
      case Answer(stag, len) =>
        if Known(r.q, stag) {
          var m := Mark(r.q, stag, len);
          UserParts(m, r.scq, room);
          ProduceFull(r.scq, room, m[..Ready(m)]);
        }
      case _ =>
    }
  }

  lemma {:induction false} RunMissing(r: Run, room: nat, events: seq<Event>)
    requires |r.scq| <= room
    ensures Missing(Go(r, room, false, events)) >= Missing(r)
    ensures Missing(Go(r, room, false, events)) == Missing(r) <==> Roomy(r, room, events)
    decreases events
  {
    hide Step, RoomFor, Missing;
    if events != [] {
      StepMissing(r, room, events[0]);
      RunMissing(Step(r, room, false, events[0]), room, events[1..]);
    }
  }

  lemma ConservedMissing(r: Run)
    ensures Conserved(r) ==> Missing(r) == 0
  {
    if Conserved(r) {
      assert |CqeIds(r.taken) + CqeIds(r.scq) + RwrIds(r.q)| == |r.taken| + |r.scq| + |r.q|;
    }
  }

  /** The user-space form conserves reads over a run if and only if the queue had room at
      every answer; what is lost once never comes back. */
  lemma UserConserves(r: Run, room: nat, events: seq<Event>)
    requires Conserved(r) && |r.scq| <= room
    ensures Conserved(Go(r, room, false, events)) <==> Roomy(r, room, events)
  {
    hide Go, Roomy, Conserved, Missing;
    RunMissing(r, room, events);
    ConservedMissing(r);
    ConservedMissing(Go(r, room, false, events));
    if Roomy(r, room, events) {
      UserIsKernel(r, room, events);
      KernelConserves(r, room, events);
    }
  }

  predicate HeadPending(q: seq<Rwr>) { q == [] || !q[0].complete }

  lemma {:induction false} ReadyLeaves(q: seq<Rwr>)
    ensures HeadPending(q[Ready(q)..])
  {
    if q != [] && q[0].complete {
      ReadyLeaves(q[1..]);
      assert q[Ready(q)..] == q[1..][Ready(q[1..])..];
    }
  }

  /** No loop of it ever leaves a complete read at the head of the queue. */
  lemma {:induction false} UserHeadPending(r: Run, room: nat, events: seq<Event>)
    requires HeadPending(r.q)
    ensures HeadPending(Go(r, room, false, events).q)
    decreases events
  {
    hide Mark, Ready, UserPop;
    if events != [] {
      var e := events[0];
      if e.Answer? && Known(r.q, e.stag) {
        UserParts(Mark(r.q, e.stag, e.len), r.scq, room);
        ReadyLeaves(Mark(r.q, e.stag, e.len));
      }
      UserHeadPending(Step(r, room, false, e), room, events[1..]);
    }
  }

  /** a is what is left of b when some entries are dropped. */
  predicate Sub<T(==)>(a: seq<T>, b: seq<T>)
    decreases |b|
  {
    if b == [] then a == []
    else
      var m := b[..|b| - 1];
      Sub(a, m) || (a != [] && a[|a| - 1] == b[|b| - 1] && Sub(a[..|a| - 1], m))
  }

  lemma SubPush<T>(a: seq<T>, b: seq<T>, x: T)
    requires Sub(a, b)
    ensures Sub(a, b + [x]) && Sub(a + [x], b + [x])
  {
    assert (b + [x])[..|b|] == b && (a + [x])[..|a|] == a;
  }

  lemma {:induction false} SubSelf<T>(a: seq<T>)
    ensures Sub(a, a)
    decreases |a|
  {
    if a != [] {
      SubSelf(a[..|a| - 1]);
    }
  }

  function Reported(r: Run): seq<Cqe> { r.taken + r.scq }

  /** The same completions into a small queue and into one that takes them all. */
  lemma {:induction false} ProduceSub(a: seq<Cqe>, scq: seq<Cqe>, room: nat,
                                      b: seq<Cqe>, big: seq<Cqe>, most: nat, done: seq<Rwr>)
    requires Sub(a + scq, b + big) && |big| + |done| <= most
    ensures Sub(a + ProduceAll(scq, room, done), b + ProduceAll(big, most, done))
    decreases done
  {
    hide Sub, ReadCqe;
    if done != [] {
      var x := ReadCqe(done[0]);
      SubPush(a + scq, b + big, x);
      assert a + scq + [x] == a + (scq + [x]) && b + big + [x] == b + (big + [x]);
      ProduceSub(a, Produced(scq, room, x), room, b, big + [x], most, done[1..]);
    }
  }

  lemma {:induction false} BigEnough(r: Run, most: nat, events: seq<Event>)
    requires |r.scq| + |r.q| + |events| <= most
    ensures Roomy(r, most, events)
    decreases events
  {
    hide Mark, Ready, UserPop, ProduceAll;
    if events != [] {
      var e := events[0];
      if e.Answer? && Known(r.q, e.stag) {
        var m := Mark(r.q, e.stag, e.len);
        UserParts(m, r.scq, most);
        ProduceFull(r.scq, most, m[..Ready(m)]);
      }
      BigEnough(Step(r, most, false, e), most, events[1..]);
    }
  }

  /** Two runs with the same reads queued, of which the first has reported no more. */
  predicate Behind(r: Run, s: Run) { r.q == s.q && Sub(Reported(r), Reported(s)) }

  lemma ConsumeReports(r: Run, room: nat)
    ensures var s := Step(r, room, false, Consume); s.q == r.q && Reported(s) == Reported(r)
  {
  }

  lemma StepBehind(r: Run, room: nat, s: Run, most: nat, e: Event)
    requires Behind(r, s) && RoomFor(s, most, e)
    ensures Behind(Step(r, room, false, e), Step(s, most, false, e))
  {
    hide Mark, Ready, UserPop, ProduceAll, Sub;
    match e {
      case Submit(id, stag) =>
      case Answer(stag, len) =>
        if Known(r.q, stag) {
          var m := Mark(r.q, stag, len);
          UserParts(m, r.scq, room);
          UserParts(m, s.scq, most);
          ProduceSub(r.taken, r.scq, room, s.taken, s.scq, most, m[..Ready(m)]);
        }
      case Consume =>
        ConsumeReports(r, room);
        ConsumeReports(s, most);
    }
  }

  lemma {:induction false} RunBehind(r: Run, room: nat, s: Run, most: nat, events: seq<Event>)
    requires Behind(r, s) && Roomy(s, most, events)
    ensures Behind(Go(r, room, false, events), Go(s, most, false, events))
    decreases events
  {
    hide Behind, Step, RoomFor;
    if events != [] {
      StepBehind(r, room, s, most, events[0]);
      RunBehind(Step(r, room, false, events[0]), room, Step(s, most, false, events[0]), most, events[1..]);
    }
  }

  /** For any order of answers and any queue size, what the user-space form reports is, in
      the order the reads were submitted and each with its own answer's length, all of the
      first reads or, where the queue lacked room, some of them; the others are queued, and
      the head of the queue is pending. */
  lemma UserOrder(asked: seq<Rwr>, past: seq<Event>, r: Run, room: nat, events: seq<Event>)
      returns (done: seq<Cqe>)
    requires Right(asked, past, r) && HeadPending(r.q) && AllOrderly(asked, past, events)
    ensures var s := Go(r, room, false, events);
            && DoneRight(AskedAll(asked, events), past + events, done)
            && QueueRight(AskedAll(asked, events), past + events, s.q, |done|)
            && Sub(Reported(s), done) && HeadPending(s.q)
    ensures Roomy(r, room, events) ==> done == Reported(Go(r, room, false, events))
  {
    hide Go, DoneRight, QueueRight, AllOrderly, AskedAll, Sub, Roomy;
    var most := |r.scq| + |r.q| + |events|;
    BigEnough(r, most, events);
    SubSelf(Reported(r));
    RunBehind(r, room, r, most, events);
    UserIsKernel(r, most, events);
    CompletionOrder(asked, past, r, most, events);
    UserHeadPending(r, room, events);
    done := Reported(Go(r, most, true, events));
    if Roomy(r, room, events) {
      UserIsKernel(r, room, events);
      CompletionOrder(asked, past, r, room, events);
      done := Reported(Go(r, room, true, events));
      SubSelf(done);
    }
  }
}
