/** Vectored I/O that survives short counts: the kernel may take or give any positive
    number of bytes per call, or fail. */
module VectorIo {
  import opened MpaLayout

  function Flat(vec: seq<Bytes>): Bytes {
    if vec == [] then [] else vec[0] + Flat(vec[1..])
  }

  lemma {:induction false} FlatAppend(a: seq<Bytes>, b: seq<Bytes>)
    ensures Flat(a + b) == Flat(a) + Flat(b)
  {
    if a == [] {
      assert a + b == b;
    } else {
      assert (a + b)[1..] == a[1..] + b;
      FlatAppend(a[1..], b);
    }
  }

  lemma FlatAt(vec: seq<Bytes>, k: nat)
    requires k < |vec|
    ensures Flat(vec[k..]) == vec[k] + Flat(vec[k + 1..])
  {
    assert vec[k..][1..] == vec[k + 1..];
  }

  /** A connected socket: what has been sent so far and what is still to be read. */
  class Socket {
    var sent: Bytes
    var input: Bytes

    constructor (input: Bytes)
      ensures sent == [] && this.input == input
    {
      sent, this.input := [], input;
    }

    /** write and writev: takes some of the bytes, at least one, or fails. */
    method Write(data: Bytes) returns (cc: int)
      modifies `sent
      ensures cc <= |data|
      ensures cc >= 0 ==> sent == old(sent) + data[..cc] && (data != [] ==> cc > 0)
      ensures cc < 0 ==> sent == old(sent)
    {
      if * {
        return -1;
      }
      cc :| 0 <= cc <= |data| && (data != [] ==> cc > 0);
      sent := sent + data[..cc];
    }

    /** read and readv: gives some of the bytes, at least one unless the peer closed. */
    method Read(n: nat) returns (data: Bytes)
      modifies `input
      ensures |data| <= n && (n > 0 && old(input) != [] ==> data != [])
      ensures old(input) == data + input
    {
      var cc :| 0 <= cc <= n && cc <= |input| && (n > 0 && input != [] ==> cc > 0);
      data := input[..cc];
      input := input[cc..];
    }

    /** write_full. */
    method WriteFull(data: Bytes) returns (ret: int)
      modifies `sent
      ensures ret >= 0 ==> sent == old(sent) + data && ret == |data|
      ensures ret < 0 ==> old(sent) <= sent <= old(sent) + data
    {
      var count, ptr := |data|, 0;
      while count > 0
        invariant 0 <= ptr <= |data| && count == |data| - ptr
        invariant sent == old(sent) + data[..ptr]
      {
        var cc := Write(data[ptr..]);
        if cc < 0 {
          return cc;
        }
        assert data[..ptr] + data[ptr..][..cc] == data[..ptr + cc];
        count := count - cc;
        ptr := ptr + cc;
      }
      assert data[..ptr] == data;
      return |data|;
    }

    /** read_full: either all `n` bytes, or the process ends because the peer closed. */
    method ReadFull(n: nat) returns (ok: bool, data: Bytes)
      modifies `input
      ensures ok <==> n <= |old(input)|
      ensures old(input) == data + input && (ok ==> |data| == n)
    {
      data := [];
      var num := n;
      while num > 0
        invariant 0 <= num && |data| + num == n && old(input) == data + input
      {
        var more := Read(num);
        if more == [] {
          return false, data;
        }
        assert data + more + input == data + (more + input);
        data := data + more;
        num := num - |more|;
      }
      return true, data;
    }

    /** The loop that writev_full and readv_full share: skips the blocks that a short
        count covered, and leaves the first one it did not with `cc` bytes done. */
    static method SkipDone(vec: seq<Bytes>, vi0: nat, cc0: nat) returns (vi: nat, cc: nat)
      requires vi0 <= |vec| && cc0 <= |Flat(vec[vi0..])|
      ensures vi0 <= vi <= |vec| && (vi == |vec| <==> vi0 == |vec|)
      ensures vi < |vec| ==> cc <= |vec[vi]| && Flat(vec[vi0..])[cc0..] == vec[vi][cc..] + Flat(vec[vi + 1..])
    {
      hide Flat;
      vi, cc := vi0, cc0;
      FlatEmpty(vec);
      while vi < |vec| && |vec[vi]| < cc
        invariant vi0 <= vi <= |vec| && cc <= |Flat(vec[vi..])| && (vi == |vec| ==> vi0 == |vec|)
        invariant Flat(vec[vi0..])[cc0..] == Flat(vec[vi..])[cc..]
        decreases |vec| - vi
      {
        FlatAt(vec, vi);
        DropAcross(vec[vi], Flat(vec[vi + 1..]), cc);
        cc := cc - |vec[vi]|;
        vi := vi + 1;
      }
      if vi < |vec| {
        FlatAt(vec, vi);
        DropInside(vec[vi], Flat(vec[vi + 1..]), cc);
      }
    }

    static lemma DropAcross(a: Bytes, b: Bytes, k: nat)
      requires |a| <= k <= |a + b|
      ensures (a + b)[k..] == b[k - |a|..]
    {
    }

    static lemma DropInside(a: Bytes, b: Bytes, k: nat)
      requires k <= |a|
      ensures (a + b)[k..] == a[k..] + b
    {
    }

    static lemma FlatEmpty(vec: seq<Bytes>)
      ensures Flat(vec[|vec|..]) == [] && vec[0..] == vec && Flat(vec[..0]) == []
    {
    }

    /** writev_full, for any length given along with the vector. With the right one all
        bytes go out once and in order. With a smaller one only that many do, or all of
        them; with a larger one, and in the latter case, the loop then runs `past` the
        vector and goes on with whatever lies behind it, which is not modelled. */
    method WritevFull(vec: seq<Bytes>, len0: nat) returns (ret: int, past: bool)
      requires len0 < TWO64 && |Flat(vec)| < TWO64
      modifies `sent
      ensures ret >= 0 && !past ==> len0 <= |Flat(vec)| && sent == old(sent) + Flat(vec)[..len0]
      ensures past ==> ret >= 0 && sent == old(sent) + Flat(vec) && len0 != |Flat(vec)|
      ensures ret < 0 ==> old(sent) <= sent <= old(sent) + Flat(vec)
    {
      hide Flat, SizeT, Sofar;
      var len, vi := len0, 0;
      ret, past := 0, false;
      ghost var whole, done, pending := Flat(vec), [], Flat(vec);
      FlatEmpty(vec);
      SizeTSmall(len0);
      Start(sent, whole);
      while len > 0
        invariant 0 <= vi <= |vec| && ret >= 0 && !past
        invariant Sofar(old(sent), sent, whole, done, pending) && len == SizeT(len0 - |done|)
        invariant len > 0 ==> pending == Flat(vec[vi..])
        decreases if len > 0 then 1 + |vec| - vi else 0
      {
        ghost var before := sent;
        var n := Write(Flat(vec[vi..]));
        if n < 0 {
          Stop(old(sent), sent, whole, done, pending);
          return n, false;
        }
        SizeTDiff(len0 - |done|, n);
        len := SizeT(len - n);
        done, pending := Step(old(sent), before, sent, whole, done, pending, pending[..n], pending[n..]);
        if len > 0 {
          var cc;
          vi, cc := SkipDone(vec, vi, n);
          if vi == |vec| {
            RanPast(len0, old(sent), sent, whole, done, pending);
            return 0, true;
          }
          before := sent;
          ret := WriteFull(vec[vi][cc..]);
          SizeTDiff(len0 - |done|, |vec[vi]| - cc);
          len := SizeT(len - (|vec[vi]| - cc));
          if ret < 0 {
            Broken(old(sent), before, sent, whole, done, pending, vec[vi][cc..], Flat(vec[vi + 1..]));
            return;
          }
          done, pending := Step(old(sent), before, sent, whole, done, pending, vec[vi][cc..], Flat(vec[vi + 1..]));
          vi := vi + 1;
        }
      }
      AllOfIt(len0, old(sent), sent, whole, done, pending);
    }

    /** What has been sent of the whole and what is still to go. */
    static ghost predicate Sofar(sent0: Bytes, sent: Bytes, whole: Bytes, done: Bytes, pending: Bytes) {
      whole == done + pending && sent == sent0 + done
    }

    static lemma Start(sent: Bytes, whole: Bytes)
      ensures Sofar(sent, sent, whole, [], whole)
    {
    }

    /** Some more bytes. */
    static lemma Step(sent0: Bytes, before: Bytes, sent: Bytes, whole: Bytes, done0: Bytes, pending0: Bytes,
                      part: Bytes, rest: Bytes)
        returns (done: Bytes, pending: Bytes)
      requires Sofar(sent0, before, whole, done0, pending0) && pending0 == part + rest && sent == before + part
      ensures Sofar(sent0, sent, whole, done, pending) && |done| == |done0| + |part| && pending == rest
    {
      done, pending := done0 + part, rest;
    }

    static lemma Stop(sent0: Bytes, sent: Bytes, whole: Bytes, done: Bytes, pending: Bytes)
      requires Sofar(sent0, sent, whole, done, pending)
      ensures sent0 <= sent <= sent0 + whole
    {
      assert sent0 + whole == sent + pending;
    }

    static lemma Broken(sent0: Bytes, before: Bytes, sent: Bytes, whole: Bytes, done: Bytes, pending: Bytes,
                        part: Bytes, tail: Bytes)
      requires Sofar(sent0, before, whole, done, pending) && pending == part + tail && before <= sent <= before + part
      ensures sent0 <= sent <= sent0 + whole
    {
      assert sent0 + whole == before + part + tail;
    }

    static lemma SizeTSmall(x: nat)
      requires x < TWO64
      ensures SizeT(x) == x
    {
    }

    static lemma SizeTDiff(x: int, n: int)
      ensures SizeT(SizeT(x) - n) == SizeT(x - n)
    {
      var q := x / TWO64;
      assert x == TWO64 * q + SizeT(x);
      SizeTPeriod(SizeT(x) - n, q);
    }

    static lemma SizeTPeriod(x: int, q: int)
      ensures SizeT(x + TWO64 * q) == SizeT(x)
    {
    }

    static lemma RanPast(len0: nat, sent0: Bytes, sent: Bytes, whole: Bytes, done: Bytes, pending: Bytes)
      requires Sofar(sent0, sent, whole, done, pending) && pending == [] && SizeT(len0 - |done|) != 0
      ensures len0 != |whole| && sent == sent0 + whole
    {
    }

    static lemma AllOfIt(len0: nat, sent0: Bytes, sent: Bytes, whole: Bytes, done: Bytes, pending: Bytes)
      requires Sofar(sent0, sent, whole, done, pending)
      requires len0 < TWO64 && |whole| < TWO64 && SizeT(len0 - |done|) == 0
      ensures len0 <= |whole| && sent == sent0 + whole[..len0]
    {
      Equal(len0, |done|);
    }

    static lemma Equal(a: nat, b: nat)
      requires a < TWO64 && b < TWO64 && SizeT(a - b) == 0
      ensures a == b
    {
    }

    /** readv into a vector: the bytes fill its blocks one after the other. */
    method Readv(vec: seq<Bytes>, n: nat) returns (filled: seq<Bytes>, cc: nat, ghost data: Bytes)
      requires n == |Flat(vec)|
      modifies `input
      ensures old(input) == data + input && |data| == cc <= n && (n > 0 && old(input) != [] ==> cc > 0)
      ensures SameSizes(filled, vec) && Flat(filled) == data + Flat(vec)[cc..]
    {
      var got := Read(n);
      OverlayIs(vec, got);
      filled, cc, data := Overlay(vec, got), |got|, got;
    }

    /** readv_full: the blocks keep their sizes and hold, end to end, the next bytes of the
        stream; false where the process would end because the peer closed. */
    method ReadvFull(vec: seq<Bytes>, len0: nat) returns (ok: bool, filled: seq<Bytes>)
      requires len0 == |Flat(vec)|
      modifies `input
      ensures ok <==> len0 <= |old(input)|
      ensures SameSizes(filled, vec)
      ensures ok ==> old(input) == Flat(filled) + input
    {
      hide Flat, SameSizes;
      var len, vi := len0, 0;
      filled := vec;
      ghost var got: Bytes := [];
      SameSelf(vec);
      FlatEmpty(vec);
      while len > 0
        invariant 0 <= vi <= |filled| && SameSizes(filled, vec) && |Flat(filled)| == len0
        invariant old(input) == got + input && 0 <= len && |got| + len == len0
        invariant Flat(filled)[..|got|] == got
        invariant len > 0 ==> |Flat(filled[..vi])| == |got|
        decreases len, |filled| - vi
      {
        ghost var before, was := got, filled;
        Divide(filled, vi);
        var rest, cc, data := Readv(filled[vi..], len);
        assert got + data + input == got + (data + input);
        filled := filled[..vi] + rest;
        FilledFrom(was, vi, rest, vec, got, data);
        got := got + data;
        len := len - cc;
        if len > 0 {
          var wi := vi;
          vi, cc := SkipDone(filled, vi, cc);
          Skipped(filled, wi, |data|, vi, cc);
          var more;
          ok, more := ReadFull(|filled[vi]| - cc);
          assert got + more + input == got + (more + input);
          if !ok {
            return;
          }
          FilledBlock(filled, vi, cc, more, vec, got);
          filled := filled[vi := filled[vi][..cc] + more];
          got := got + more;
          len := len - |more|;
          vi := vi + 1;
        }
      }
      ok := true;
      assert Flat(filled)[..|got|] == Flat(filled);
    }

    /** What lies before and from block k on. */
    static lemma Divide(vec: seq<Bytes>, k: nat)
      requires k <= |vec|
      ensures Flat(vec) == Flat(vec[..k]) + Flat(vec[k..])
    {
      FlatAppend(vec[..k], vec[k..]);
      assert vec[..k] + vec[k..] == vec;
    }

    /** One readv from block k on. */
    static lemma FilledFrom(was: seq<Bytes>, k: nat, rest: seq<Bytes>, vec: seq<Bytes>, got: Bytes, data: Bytes)
      requires k <= |was| && SameSizes(was, vec) && SameSizes(rest, was[k..])
      requires |Flat(was[..k])| == |got| <= |Flat(was)| && Flat(was)[..|got|] == got
      requires |data| <= |Flat(was[k..])| && Flat(rest) == data + Flat(was[k..])[|data|..]
      ensures var now := was[..k] + rest;
              && SameSizes(now, vec) && |got + data| <= |Flat(now)| == |Flat(was)| && Flat(now)[..|got + data|] == got + data
              && |now| == |was| && now[..k] == was[..k] && now[k..] == rest && |Flat(rest)| == |Flat(was[k..])|
    {
      hide Flat;
      Divide(was, k);
      FlatAppend(was[..k], rest);
      var now := was[..k] + rest;
      assert now[..k] == was[..k] && now[k..] == rest;
      assert Flat(was[..k]) == got;
      assert Flat(now) == got + (data + Flat(was[k..])[|data|..]);
    }

    /** Where the short count left off. */
    static lemma Skipped(vec: seq<Bytes>, wi: nat, n: nat, vi: nat, cc: nat)
      requires wi <= vi < |vec| && cc <= |vec[vi]| && n <= |Flat(vec[wi..])|
      requires Flat(vec[wi..])[n..] == vec[vi][cc..] + Flat(vec[vi + 1..])
      ensures |Flat(vec[..vi])| + cc == |Flat(vec[..wi])| + n
    {
      hide Flat;
      Divide(vec, wi);
      Divide(vec, vi);
      FlatAt(vec, vi);
    }

    /** read_full into the block it left off in. */
    static lemma FilledBlock(was: seq<Bytes>, vi: nat, cc: nat, more: Bytes, vec: seq<Bytes>, got: Bytes)
      requires vi < |was| && cc + |more| == |was[vi]| && SameSizes(was, vec)
      requires |Flat(was[..vi])| + cc == |got| <= |Flat(was)| && Flat(was)[..|got|] == got
      ensures var now := was[vi := was[vi][..cc] + more];
              && SameSizes(now, vec) && |Flat(now)| == |Flat(was)|
              && |got + more| <= |Flat(now)| && Flat(now)[..|got + more|] == got + more
              && |Flat(now[..vi + 1])| == |got + more|
    {
      hide Flat;
      var now := was[vi := was[vi][..cc] + more];
      Divide(was, vi);
      Divide(now, vi);
      FlatAt(was, vi);
      FlatAt(now, vi);
      assert now[..vi] == was[..vi] && now[vi + 1..] == was[vi + 1..];
      var a, b, t := Flat(was[..vi]), was[vi], Flat(was[vi + 1..]);
      assert got == a + b[..cc] by {
        assert Flat(was) == a + (b + t);
        assert (a + (b + t))[..|got|] == a + b[..cc];
      }
      assert Flat(now) == a + (b[..cc] + more + t) == got + more + t;
      Divide(now, vi + 1);
    }

    static lemma SameSelf(vec: seq<Bytes>)
      ensures SameSizes(vec, vec)
    {
    }
  }

  /** Blocks of the same sizes. */
  predicate SameSizes(a: seq<Bytes>, b: seq<Bytes>) {
    |a| == |b| && forall i :: 0 <= i < |a| ==> |a[i]| == |b[i]|
  }

  /** The blocks once `data` has been put into them from the first one on. */
  function Overlay(vec: seq<Bytes>, data: Bytes): seq<Bytes>
    requires |data| <= |Flat(vec)|
  {
    if vec == [] then []
    else if |data| <= |vec[0]| then [data + vec[0][|data|..]] + vec[1..]
    else [data[..|vec[0]|]] + Overlay(vec[1..], data[|vec[0]|..])
  }

  lemma {:induction false} OverlayIs(vec: seq<Bytes>, data: Bytes)
    requires |data| <= |Flat(vec)|
    ensures SameSizes(Overlay(vec, data), vec) && Flat(Overlay(vec, data)) == data + Flat(vec)[|data|..]
  {
    if vec != [] {
      var o := Overlay(vec, data);
      if |data| <= |vec[0]| {
        assert o[1..] == vec[1..];
        assert Flat(vec)[|data|..] == vec[0][|data|..] + Flat(vec[1..]);
      } else {
        OverlayIs(vec[1..], data[|vec[0]|..]);
        assert o[1..] == Overlay(vec[1..], data[|vec[0]|..]);
        assert Flat(vec)[|data|..] == Flat(vec[1..])[|data| - |vec[0]|..];
        assert data == data[..|vec[0]|] + data[|vec[0]|..];
      }
    }
  }
}
