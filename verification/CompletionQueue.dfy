/** cq.c: a completion ring, and the bounded queue that it stands for. */
module CompletionQueue {

  datatype Op = OpSend | OpRecv | OpRdmaRead | OpRdmaWrite | OpErr

  datatype Cqe = Cqe(op: Op, id: nat, len: nat)

  /** Producing into a bounded queue: a full queue stays as it is. */
  function Produced(q: seq<Cqe>, room: nat, e: Cqe): (r: seq<Cqe>)
    ensures |q| <= room ==> |r| <= room
  {
    if |q| < room then q + [e] else q
  }

  /** next_index. */
  function NextIndex(cur: nat, n: nat): nat {
    if cur + 1 == n then 0 else cur + 1
  }

  /** cq_t. */
  class Ring {
    var cqe: array<Cqe>
    var prod: nat
    var cons: nat

    predicate Valid()
      reads this, cqe
    {
      cqe.Length > 0 && prod < cqe.Length && cons < cqe.Length
    }

    /** cq_num_occupied. */
    function NumOccupied(): nat
      requires Valid()
      reads this, cqe
    {
      if prod < cons then prod + cqe.Length - cons else prod - cons
    }

    /** The entries waiting, oldest first. */
    function Contents(): (q: seq<Cqe>)
      requires Valid()
      reads this, cqe
      ensures |q| == NumOccupied()
    {
      if cons <= prod then cqe[cons..prod] else cqe[cons..] + cqe[..prod]
    }

    /** How many entries fit; one slot always stays free. */
    function Room(): nat
      requires Valid()
      reads this, cqe
    {
      cqe.Length - 1
    }

    /** cq_create, for a positive size. */
    constructor (num: nat)
      requires num > 0
      ensures Valid() && fresh(cqe) && Contents() == [] && Room() == num - 1
    {
      cqe := new Cqe[num](i => Cqe(OpSend, 0, 0));
      prod, cons := 0, 0;
    }

    /** cq_isfull. */
    predicate IsFull()
      requires Valid()
      reads this, cqe
    {
      NumOccupied() >= cqe.Length - 1
    }

    /** cq_produce. */
    method Produce(e: Cqe) returns (ok: bool)
      requires Valid()
      modifies cqe, `prod
      ensures Valid() && cqe == old(cqe) && cons == old(cons)
      ensures Contents() == Produced(old(Contents()), Room(), e)
      ensures ok <==> |old(Contents())| < Room()
    {
      var nextprod := NextIndex(prod, cqe.Length);
      if nextprod == cons {
        return false;
      }
      ghost var was := Contents();
      cqe[prod] := e;
      prod := nextprod;
      assert Contents() == was + [e];
      return true;
    }

    /** cq_consume. */
    method Consume() returns (ok: bool, e: Cqe)
      requires Valid()
      modifies `cons
      ensures Valid() && cqe == old(cqe) && prod == old(prod)
      ensures ok <==> old(Contents()) != []
      ensures ok ==> e == old(Contents())[0] && Contents() == old(Contents())[1..]
      ensures !ok ==> Contents() == []
    {
      e := cqe[cons];
      if prod == cons {
        return false, e;
      }
      cons := NextIndex(cons, cqe.Length);
      return true, e;
    }
  }

  /** A ring that is not full takes the next entry, and one that is does not. */
  method CheckedProduce(cq: Ring, e: Cqe) returns (full: bool, ok: bool)
    requires cq.Valid()
    modifies cq.cqe, cq`prod
    ensures cq.Valid() && ok == !full
    ensures cq.Contents() == old(cq.Contents()) + (if full then [] else [e])
  {
    full := cq.IsFull();
    ok := false;
    if !full {
      ok := cq.Produce(e);
    }
  }

  datatype Call = Enter(e: Cqe) | Leave

  /** A bounded queue as a run of calls sees it, and the entries handed out. */
  datatype Queue = Queue(waiting: seq<Cqe>, handedOut: seq<Cqe>, accepted: seq<Cqe>)

  function Do(q: Queue, room: nat, c: Call): Queue {
    match c
    case Enter(e) =>
      if |q.waiting| < room then Queue(q.waiting + [e], q.handedOut, q.accepted + [e]) else q
    case Leave =>
      if q.waiting == [] then q
      else Queue(q.waiting[1..], q.handedOut + [q.waiting[0]], q.accepted)
  }

  function DoAll(q: Queue, room: nat, calls: seq<Call>): Queue
    decreases calls
  {
    if calls == [] then q else DoAll(Do(q, room, calls[0]), room, calls[1..])
  }

  predicate Conserved(q: Queue, room: nat) {
    q.accepted == q.handedOut + q.waiting && |q.waiting| <= room
  }

  /** Nothing that was accepted is lost, doubled or reordered, whatever the calls. */
  lemma {:induction false} Fifo(q: Queue, room: nat, calls: seq<Call>)
    requires Conserved(q, room)
    ensures Conserved(DoAll(q, room, calls), room)
    decreases calls
  {
    if calls != [] {
      var n := Do(q, room, calls[0]);
      match calls[0] {
        case Enter(e) =>
          assert q.handedOut + (q.waiting + [e]) == q.handedOut + q.waiting + [e];
        case Leave =>
          if q.waiting != [] {
            assert q.handedOut + [q.waiting[0]] + q.waiting[1..] == q.handedOut + ([q.waiting[0]] + q.waiting[1..]);
            assert [q.waiting[0]] + q.waiting[1..] == q.waiting;
          }
      }
      Fifo(n, room, calls[1..]);
    }
  }

  /** The ring goes through any run of calls as that queue does. */
  method RunRing(cq: Ring, calls: seq<Call>) returns (handedOut: seq<Cqe>, accepted: seq<Cqe>)
    requires cq.Valid()
    modifies cq, cq.cqe
    ensures cq.Valid() && cq.cqe == old(cq.cqe)
    ensures Queue(cq.Contents(), handedOut, accepted) == DoAll(Queue(old(cq.Contents()), [], []), cq.Room(), calls)
  {
    handedOut, accepted := [], [];
    var k := 0;
    ghost var room := cq.Room();
    while k < |calls|
      invariant 0 <= k <= |calls| && cq.Valid() && cq.cqe == old(cq.cqe)
      invariant DoAll(Queue(cq.Contents(), handedOut, accepted), room, calls[k..])
             == DoAll(Queue(old(cq.Contents()), [], []), room, calls)
    {
      var rest := calls[k..];
      assert rest[0] == calls[k] && rest[1..] == calls[k + 1..];
      match calls[k] {
        case Enter(e) =>
          var ok := cq.Produce(e);
          if ok {
            accepted := accepted + [e];
          }
        case Leave =>
          var ok, e := cq.Consume();
          if ok {
            handedOut := handedOut + [e];
          }
      }
      k := k + 1;
    }
  }
}
