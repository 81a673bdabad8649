/** ddp_send_untagged and ddp_send_tagged: cutting a message into segments. */
module DdpSegments {
  import opened MpaLayout

  datatype Opcode = Send | RdmaWrite | RdmaReadReq | RdmaReadResp

  const SEND_Q: nat := 0
  const RDMAREQ_Q: nat := 1

  /** How many values a field of so many bytes has. */
  function Pow256(width: nat): nat {
    if width == 0 then 1 else 256 * Pow256(width - 1)
  }

  /** ddp_untagged_hdr_t and ddp_tagged_hdr_t with their payload. */
  datatype Segment =
    | Untagged(qn: nat, msn: nat, mo: nat, op: Opcode, last: bool, data: Bytes)
    | Tagged(stag: nat, to: nat, op: Opcode, last: bool, data: Bytes)

  /** Where a whole message goes. */
  datatype Dest = ToQueue(qn: nat, msn: nat, op: Opcode) | ToTag(stag: nat, to: nat, op: Opcode)

  function Seg(d: Dest, off: nat, last: bool, data: Bytes): Segment {
    match d
    case ToQueue(qn, msn, op) => Untagged(qn, msn, off, op, last, data)
    case ToTag(stag, to, op) => Tagged(stag, to + off, op, last, data)
  }

  /** The segments from offset `off` on. */
  function Cut(d: Dest, max: nat, data: Bytes, off: nat): (s: seq<Segment>)
    requires max > 0 && off <= |data|
    ensures s != []
    decreases |data| - off
  {
    if |data| - off <= max then [Seg(d, off, true, data[off..])]
    else [Seg(d, off, false, data[off..off + max])] + Cut(d, max, data, off + max)
  }

  /** A tagged message of no bytes is not sent at all. */
  function Segments(d: Dest, max: nat, data: Bytes): seq<Segment>
    requires max > 0
  {
    if d.ToTag? && data == [] then [] else Cut(d, max, data, 0)
  }

  /** num_sgmnts, before an untagged message of no bytes is given its one segment. */
  function NumSegments(len: nat, max: nat): nat
    requires max > 0
  {
    (len + max - 1) / max
  }

  lemma NumSegmentsStep(len: nat, max: nat)
    requires max > 0
    ensures 0 < len <= max ==> NumSegments(len, max) == 1
    ensures len > max ==> NumSegments(len, max) == 1 + NumSegments(len - max, max)
    ensures len == 0 ==> NumSegments(len, max) == 0
  {
    if 0 < len <= max {
      Quotient(len + max - 1, max, 1);
    } else if len > max {
      var q := NumSegments(len - max, max);
      Divide(len - max + max - 1, max);
      Grow(q, max);
      Quotient(len + max - 1, max, q + 1);
    } else {
      Quotient(max - 1, max, 0);
    }
  }

  lemma Grow(q: nat, max: nat)
    ensures (q + 1) * max == q * max + max
  {
  }

  lemma Divide(a: nat, b: nat)
    requires b > 0
    ensures a / b * b <= a < a / b * b + b
  {
  }

  lemma Quotient(a: nat, b: nat, q: nat)
    requires b > 0 && q * b <= a < q * b + b
    ensures a / b == q
  {
    Divide(a, b);
    var p := a / b;
    if p < q {
      Mono(p + 1, q, b);
      Grow(p, b);
    } else if p > q {
      Mono(q + 1, p, b);
      Grow(q, b);
    }
  }

  lemma Mono(p: nat, q: nat, b: nat)
    requires p <= q
    ensures p * b <= q * b
  {
  }

  /** num_sgmnts as the source computes it, in 32 bits. */
  function NumSegments32(len: nat, max: nat): nat
    requires max > 0
  {
    (len + max - 1) % TWO32 / max
  }

  /** It is the number of segments exactly when the sum stays below 2^32. */
  lemma NumSegments32Right(len: nat, max: nat)
    requires 0 < max < TWO32 && len < TWO32
    ensures NumSegments32(len, max) == NumSegments(len, max) <==> len + max <= TWO32
  {
    var a := len + max - 1;
    if a >= TWO32 {
      var q := (a - TWO32) / max;
      WrappedOnce(a);
      Divide(a - TWO32, max);
      Divide(a, max);
      Grow(q, max);
      if a / max <= q {
        Mono(a / max, q, max);
      }
    } else {
      NotWrapped(a);
    }
  }

  lemma WrappedOnce(a: nat)
    requires TWO32 <= a < 2 * TWO32
    ensures a % TWO32 == a - TWO32
  {
  }

  lemma NotWrapped(a: nat)
    requires a < TWO32
    ensures a % TWO32 == a
  {
  }

  /** Which piece of the message segment number i is, counting from offset `off`. */
  function Piece(d: Dest, max: nat, data: Bytes, off: nat, n: nat, i: nat): Segment
    requires off <= |data| && (i + 1 == n ==> off + i * max <= |data|)
    requires i + 1 != n ==> off + i * max + max <= |data|
  {
    var mo := off + i * max;
    if i + 1 == n then Seg(d, mo, true, data[mo..]) else Seg(d, mo, false, data[mo..mo + max])
  }

  /** The segments are as many as num_sgmnts says, follow each other at multiples of the
      payload limit, and only the final one is marked LAST. */
  lemma {:induction false} CutAt(d: Dest, max: nat, data: Bytes, off: nat, i: nat)
    requires max > 0 && off <= |data| && i < |Cut(d, max, data, off)|
    ensures var n := |Cut(d, max, data, off)|;
            && n == (if off == |data| then 1 else NumSegments(|data| - off, max))
            && off + i * max <= |data| && (i + 1 != n ==> off + i * max + max < |data|)
            && (i + 1 == n ==> |data| - (off + i * max) <= max)
            && Cut(d, max, data, off)[i] == Piece(d, max, data, off, n, i)
    decreases |data| - off
  {
    hide NumSegments, Seg;
    NumSegmentsStep(|data| - off, max);
    if |data| - off > max {
      if i > 0 {
        CutAt(d, max, data, off + max, i - 1);
        Grow(i - 1, max);
      } else {
        CutAt(d, max, data, off + max, 0);
      }
    }
  }

  function Payloads(s: seq<Segment>): Bytes {
    if s == [] then [] else s[0].data + Payloads(s[1..])
  }

  /** The segments' payloads, put together, are the message. */
  lemma {:induction false} CutTiles(d: Dest, max: nat, data: Bytes, off: nat)
    requires max > 0 && off <= |data|
    ensures Payloads(Cut(d, max, data, off)) == data[off..]
    decreases |data| - off
  {
    var s := Cut(d, max, data, off);
    if |data| - off > max {
      CutTiles(d, max, data, off + max);
      assert s[1..] == Cut(d, max, data, off + max);
      assert data[off..] == data[off..off + max] + data[off + max..];
    } else {
      assert s[1..] == [];
    }
  }

  /** Field by field: segment number i of n covers the bytes from i * max on, max of them or,
      in the last one, what is left. A queue's header holds queue, message number and offset;
      a tag's the address. */
  lemma SegmentIs(d: Dest, max: nat, data: Bytes, i: nat)
    requires max > 0 && i < |Segments(d, max, data)|
    ensures var n := |Segments(d, max, data)|;
            var lo := i * max;
            var hi := if i + 1 == n then |data| else lo + max;
            && lo <= hi <= |data| && hi - lo <= max && (hi == lo ==> data == [] && d.ToQueue?)
            && Segments(d, max, data)[i] ==
               match d
               case ToQueue(qn, msn, op) => Untagged(qn, msn, lo, op, i + 1 == n, data[lo..hi])
               case ToTag(stag, to, op) => Tagged(stag, to + lo, op, i + 1 == n, data[lo..hi])
  {
    hide Cut, NumSegments;
    CutAt(d, max, data, 0, i);
    if i > 0 {
      Grow(i - 1, max);
      CutAt(d, max, data, 0, i - 1);
    }
  }

  /** No segment exactly for a tagged message of no bytes. */
  lemma NoSegments(d: Dest, max: nat, data: Bytes)
    requires max > 0
    ensures Segments(d, max, data) == [] <==> d.ToTag? && data == []
  {
  }
}
