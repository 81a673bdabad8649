/** Outstanding RDMA Reads and their answers: what a sink tag of its own is needed for, and
    what is lost when several reads share one. */
module RdmapTags {
  import opened CompletionQueue
  import opened Rdmap

  function Answered(w: Rwr, len: nat): Rwr { w.(complete := true, len := len) }

  /** An answer of this length would not change any other read: none has the tag, unless
      it is complete with the same length already. */
  predicate OwnAnswer(q: seq<Rwr>, k: nat, len: nat)
    requires k < |q|
  {
    forall j :: 0 <= j < |q| && j != k && q[j].stag == q[k].stag ==> q[j] == Answered(q[j], len)
  }

  lemma MarkOthers(q: seq<Rwr>, k: nat, len: nat)
    requires k < |q|
    ensures Mark(q, q[k].stag, len) == q[k := Answered(q[k], len)] <==> OwnAnswer(q, k, len)
    ensures var r, s := Mark(q, q[k].stag, len), q[k := Answered(q[k], len)];
            && (forall j :: 0 <= j < |q| && s[j].complete ==> r[j].complete)
            && (!OwnAnswer(q, k, len) ==> exists j :: 0 <= j < |q| && Changed(s, r, j, len))
  {
    hide Mark;
    var r, s := Mark(q, q[k].stag, len), q[k := Answered(q[k], len)];
    forall j | 0 <= j < |q|
      ensures r[j] == if q[j].stag == q[k].stag then Answered(q[j], len) else q[j]
    {
      MarkAt(q, q[k].stag, len, j);
    }
    if OwnAnswer(q, k, len) {
      assert r == s;
    } else {
      var j :| 0 <= j < |q| && j != k && q[j].stag == q[k].stag && q[j] != Answered(q[j], len);
      assert Changed(s, r, j, len);
    }
  }

  /** The read is complete with this length in the one queue, and not in the other. */
  predicate Changed(s: seq<Rwr>, r: seq<Rwr>, j: nat, len: nat)
    requires j < |s| == |r|
  {
    r[j].complete && r[j].len == len && !(s[j].complete && s[j].len == len)
  }

  /** What the answer to read k alone should do: complete it, and then report what is ready
      at the front. */
  function Intended(c: Config, s: St, k: nat, len: nat): St
    requires k < |s.rwrq|
  {
    var q := s.rwrq[k := Answered(s.rwrq[k], len)];
    s.(rwrq := q[Ready(q)..], scq := ProduceAll(s.scq, c.scqRoom, q[..Ready(q)]))
  }

  lemma {:induction false} ReadyMore(s: seq<Rwr>, r: seq<Rwr>)
    requires |s| == |r| && forall j :: 0 <= j < |s| && s[j].complete ==> r[j].complete
    ensures Ready(s) <= Ready(r)
  {
    if s != [] && s[0].complete {
      assert forall j :: 0 <= j < |s[1..]| ==> s[1..][j] == s[j + 1] && r[1..][j] == r[j + 1];
      ReadyMore(s[1..], r[1..]);
    }
  }

  lemma {:induction false} ReadyDone(q: seq<Rwr>, j: nat)
    requires j < Ready(q)
    ensures q[j].complete
  {
    if j > 0 {
      ReadyDone(q[1..], j - 1);
    }
  }

  /** With room for all, the completions are added one by one. */
  lemma {:induction false} ProducedAt(scq: seq<Cqe>, room: nat, done: seq<Rwr>)
    requires |scq| + |done| <= room
    ensures var p := ProduceAll(scq, room, done);
            && |p| == |scq| + |done| && p[..|scq|] == scq
            && forall j :: 0 <= j < |done| ==> p[|scq| + j] == ReadCqe(done[j])
    decreases done
  {
    hide ReadCqe;
    if done != [] {
      var next := scq + [ReadCqe(done[0])];
      ProducedAt(next, room, done[1..]);
      var p := ProduceAll(scq, room, done);
      assert p == ProduceAll(next, room, done[1..]);
      assert p[|scq|] == next[|scq|];
      forall j | 0 <= j < |done| ensures p[|scq| + j] == ReadCqe(done[j]) {
        if j > 0 {
          assert p[|next| + (j - 1)] == ReadCqe(done[1..][j - 1]);
        }
      }
    }
  }

  /** The answer to read k does just that if and only if it would not change any other. */
  lemma AnswersItsRead(c: Config, s: St, k: nat, len: nat)
    requires k < |s.rwrq| && |s.scq| + |s.rwrq| <= c.scqRoom
    ensures Reap(c, s, s.rwrq[k].stag, len) == Just(Intended(c, s, k, len)) <==> OwnAnswer(s.rwrq, k, len)
  {
    hide Mark, Ready, ProduceAll, Produced, OwnAnswer, Changed;
    var q, stag := s.rwrq, s.rwrq[k].stag;
    var r, i := Mark(q, stag, len), q[k := Answered(q[k], len)];
    MarkOthers(q, k, len);
    ReadyMore(i, r);
    if !OwnAnswer(q, k, len) {
      var j :| 0 <= j < |q| && Changed(i, r, j, len);
      ShowsUp(s.scq, c.scqRoom, i, r, j, len);
    }
  }

  /** A difference between the queues is one in what is reported or in what is left. */
  lemma ShowsUp(scq: seq<Cqe>, room: nat, i: seq<Rwr>, r: seq<Rwr>, j: nat, len: nat)
    requires j < |i| == |r| && |scq| + |i| <= room && Ready(i) <= Ready(r) && Changed(i, r, j, len)
    ensures !(i[Ready(i)..] == r[Ready(r)..] && ProduceAll(scq, room, i[..Ready(i)]) == ProduceAll(scq, room, r[..Ready(r)]))
  {
    hide Ready, ProduceAll;
    var m, n := Ready(i), Ready(r);
    ProducedAt(scq, room, i[..m]);
    ProducedAt(scq, room, r[..n]);
    if m == n {
      if j < m {
        ReadyDone(i, j);
        var a, b := ProduceAll(scq, room, i[..m]), ProduceAll(scq, room, r[..n]);
        assert a[|scq| + j] == ReadCqe(i[..m][j]) && b[|scq| + j] == ReadCqe(r[..n][j]);
      } else {
        assert i[m..][j - m] == i[j] && r[n..][j - m] == r[j];
      }
    }
  }

  /** A read after an answer for this tag. */
  function After(w: Rwr, stag: nat, len: nat): Rwr { if w.stag == stag then Answered(w, len) else w }

  /** How many reads at the front have the tag or are complete. */
  function Leading(q: seq<Rwr>, stag: nat): (n: nat)
    ensures n <= |q| && forall j :: 0 <= j < n ==> q[j].stag == stag || q[j].complete
    ensures n < |q| ==> q[n].stag != stag && !q[n].complete
  {
    if q == [] || (q[0].stag != stag && !q[0].complete) then 0 else 1 + Leading(q[1..], stag)
  }

  lemma {:induction false} ReadyIsLeading(q: seq<Rwr>, stag: nat, len: nat)
    ensures Ready(Mark(q, stag, len)) == Leading(q, stag)
  {
    if q != [] {
      ReadyIsLeading(q[1..], stag, len);
      assert Mark(q, stag, len)[1..] == Mark(q[1..], stag, len);
    }
  }

  lemma NoneDone(scq: seq<Cqe>, room: nat)
    ensures ProduceAll(scq, room, []) == scq
  {
  }

  function AfterAll(q: seq<Rwr>, stag: nat, len: nat): (r: seq<Rwr>)
    ensures |r| == |q|
  {
    seq(|q|, k requires 0 <= k < |q| => After(q[k], stag, len))
  }

  /** When reads share the tag of the oldest one, its answer completes all of them up to the
      first pending read with another tag, with its own length and before any byte of theirs
      has come. The next answer for the tag ends the process if and only if the first one
      completed all of them. */
  lemma SharedTagLoses(c: Config, s: St, len: nat, later: nat)
    requires s.rwrq != []
    ensures var stag := s.rwrq[0].stag;
            var n := Leading(s.rwrq, stag);
            var r := Reap(c, s, stag, len);
            && r.Just? && n >= 1
            && r.v.scq == ProduceAll(s.scq, c.scqRoom, AfterAll(s.rwrq[..n], stag, len))
            && |r.v.rwrq| == |s.rwrq| - n && r.v.mem == s.mem
            && (Reap(c, r.v, stag, later) == Nothing <==> forall j :: n <= j < |s.rwrq| ==> s.rwrq[j].stag != stag)
  {
    hide Mark, Ready, ProduceAll, Leading;
    var q, stag := s.rwrq, s.rwrq[0].stag;
    var r := Mark(q, stag, len);
    ReadyIsLeading(q, stag, len);
    var n := Leading(q, stag);
    forall j | 0 <= j < |q| ensures r[j] == After(q[j], stag, len) {
      MarkAt(q, stag, len, j);
    }
    assert r[..n] == AfterAll(q[..n], stag, len);
    assert forall j :: 0 <= j < |q| - n ==> r[n..][j].stag == q[n + j].stag;
    assert Known(r[n..], stag) <==> exists j :: n <= j < |q| && q[j].stag == stag by {
      if j :| n <= j < |q| && q[j].stag == stag {
        assert r[n..][j - n].stag == stag;
      }
    }
  }

  // ----- the order of completions -----

  datatype Answer = Answer(stag: nat, len: nat)

  /** Answers that come in one after the other. */
  function ReapEach(c: Config, s: St, answers: seq<Answer>): Opt<St>
    decreases answers
  {
    if answers == [] then Just(s)
    else
      match Reap(c, s, answers[0].stag, answers[0].len)
      case Nothing => Nothing
      case Just(t) => ReapEach(c, t, answers[1..])
  }

  predicate Starts(a: seq<Cqe>, b: seq<Cqe>) { |a| <= |b| && b[..|a|] == a }

  lemma {:induction false} ProduceGrows(scq: seq<Cqe>, room: nat, done: seq<Rwr>)
    ensures Starts(scq, ProduceAll(scq, room, done))
    ensures done != [] && |scq| < room ==> |ProduceAll(scq, room, done)| > |scq|
    decreases done
  {
    if done != [] {
      ProduceGrows(Produced(scq, room, ReadCqe(done[0])), room, done[1..]);
    }
  }

  lemma {:induction false} ReapGrows(c: Config, s: St, answers: seq<Answer>)
    requires ReapEach(c, s, answers).Just?
    ensures Starts(s.scq, ReapEach(c, s, answers).v.scq)
    decreases answers
  {
    hide Mark, Ready, ProduceAll;
    if answers != [] {
      var q := Mark(s.rwrq, answers[0].stag, answers[0].len);
      ProduceGrows(s.scq, c.scqRoom, q[..Ready(q)]);
      ReapGrows(c, Reap(c, s, answers[0].stag, answers[0].len).v, answers[1..]);
    }
  }

  /** Whatever answers come in, in any order, nothing completes until the oldest pending
      read has its own. */
  lemma {:induction false} HeadBlocks(c: Config, s: St, answers: seq<Answer>)
    requires s.rwrq != [] && !s.rwrq[0].complete && |s.scq| < c.scqRoom && ReapEach(c, s, answers).Just?
    ensures ReapEach(c, s, answers).v.scq == s.scq <==> forall a :: a in answers ==> a.stag != s.rwrq[0].stag
    decreases answers
  {
    hide Mark, ProduceAll;
    if answers != [] {
      var a, q := answers[0], s.rwrq;
      var r := Mark(q, a.stag, a.len);
      var t := Reap(c, s, a.stag, a.len).v;
      MarkAt(q, a.stag, a.len, 0);
      assert answers == [a] + answers[1..];
      if a.stag == q[0].stag {
        ProduceGrows(s.scq, c.scqRoom, r[..Ready(r)]);
        ReapGrows(c, t, answers[1..]);
      } else {
        NoneDone(s.scq, c.scqRoom);
        assert r[..0] == [] && r[0..] == r;
        HeadBlocks(c, t, answers[1..]);
      }
    }
  }
}
