/** kiwarp/mem.c and kiwarp/ddp.c: user memory reached page by page. */
module KernelPages {
  import opened MpaLayout
  import opened DdpSegments

  const PAGE: nat := 4096
  const IOV: nat := 5
  const DDP_SEGLEN: nat := 1444

  // ----- page arithmetic -----

  function PageOf(a: nat): nat { a / PAGE }

  function InPage(a: nat): (o: nat)
    ensures o < PAGE
  {
    a % PAGE
  }

  lemma SplitAddress(a: nat)
    ensures a == PAGE * PageOf(a) + InPage(a)
  {
  }

  lemma AddressOf(p: nat, o: nat)
    requires o < PAGE
    ensures PageOf(PAGE * p + o) == p && InPage(PAGE * p + o) == o
  {
  }

  /** mem_region_t of the kernel module: user addresses start to start + len - 1, pinned. */
  datatype Region = Region(start: nat, len: nat) {
    /** PAGE_ALIGN(len + (start & ~PAGE_MASK)) >> PAGE_SHIFT. */
    function NPages(): nat { (len + InPage(start) + PAGE - 1) / PAGE }

    /** start >> PAGE_SHIFT, the page number of page_list[0]. */
    function First(): nat { PageOf(start) }

    predicate Has(buf: nat, n: nat) { start <= buf && buf + n <= start + len }
  }

  /** Every byte of the region lies in a page of its list. */
  lemma PageListed(mr: Region, a: nat)
    requires mr.start <= a < mr.start + mr.len
    ensures mr.First() <= PageOf(a) < mr.First() + mr.NPages()
  {
  }

  /** The list holds no page that the region does not touch. */
  lemma NoPageTooMany(mr: Region, p: nat)
    requires p < mr.NPages()
    ensures exists a :: mr.start <= a <= mr.start + mr.len && PageOf(a) == mr.First() + p
    ensures mr.len > 0 ==> exists a :: mr.start <= a < mr.start + mr.len && PageOf(a) == mr.First() + p
  {
    SplitAddress(mr.start);
    if p == 0 {
      assert PageOf(mr.start) == mr.First() + p;
    } else {
      AddressOf(mr.First() + p, 0);
      LastPage(mr, p);
      assert PageOf(PAGE * (mr.First() + p)) == mr.First() + p;
    }
  }

  lemma LastPage(mr: Region, p: nat)
    requires 0 < p < mr.NPages()
    ensures mr.start <= PAGE * (mr.First() + p) < mr.start + mr.len
  {
  }

  // ----- the pieces of a range -----

  /** One iovec entry: `len` bytes at `off` in page number `page` of the region's list. */
  datatype Piece = Piece(page: nat, off: nat, len: nat)

  function Room(buf: nat, n: nat): (k: nat)
    requires n > 0
    ensures 0 < k <= n && InPage(buf) + k <= PAGE
    ensures k < n ==> InPage(buf) + k == PAGE
  {
    if n > PAGE - InPage(buf) then PAGE - InPage(buf) else n
  }

  function Pieces(mr: Region, buf: nat, n: nat): seq<Piece>
    requires mr.Has(buf, n)
    decreases n
  {
    if n == 0 then []
    else
      PageListed(mr, buf);
      var k := Room(buf, n);
      [Piece(PageOf(buf) - mr.First(), InPage(buf), k)] + Pieces(mr, buf + k, n - k)
  }

  /** The user address where a piece begins. */
  function Address(mr: Region, p: Piece): nat { PAGE * (mr.First() + p.page) + p.off }

  function Lengths(ps: seq<Piece>): nat {
    if ps == [] then 0 else ps[0].len + Lengths(ps[1..])
  }

  lemma PageOfFirst(mr: Region, buf: nat)
    requires mr.First() <= PageOf(buf)
    ensures PAGE * (mr.First() + (PageOf(buf) - mr.First())) + InPage(buf) == buf
  {
    SplitAddress(buf);
  }

  /** The pieces follow each other without gap, none crosses a page, and each lies in a page
      of the region's list. */
  lemma {:induction false} PieceAt(mr: Region, buf: nat, n: nat, i: nat)
    requires mr.Has(buf, n) && i < |Pieces(mr, buf, n)|
    ensures var ps := Pieces(mr, buf, n);
            && Address(mr, ps[i]) == buf + Lengths(ps[..i])
            && ps[i].len > 0 && ps[i].off + ps[i].len <= PAGE && ps[i].page < mr.NPages()
    decreases n
  {
    hide PageOf, InPage, Region.NPages, Region.First;
    var k := Room(buf, n);
    var ps := Pieces(mr, buf, n);
    PageListed(mr, buf);
    if i == 0 {
      PageOfFirst(mr, buf);
    } else {
      PieceAt(mr, buf + k, n - k, i - 1);
      assert ps[..i][1..] == ps[1..][..i - 1];
    }
  }

  lemma {:induction false} PiecesCover(mr: Region, buf: nat, n: nat)
    requires mr.Has(buf, n)
    ensures Lengths(Pieces(mr, buf, n)) == n
    decreases n
  {
    hide PageOf, InPage, Region.NPages, Region.First;
    if n > 0 {
      var k := Room(buf, n);
      PiecesCover(mr, buf + k, n - k);
      assert Pieces(mr, buf, n)[1..] == Pieces(mr, buf + k, n - k);
    }
  }

  function PageSpan(buf: nat, n: nat): nat { (InPage(buf) + n + PAGE - 1) / PAGE }

  lemma PageSpanStep(buf: nat, n: nat)
    requires n > 0
    ensures PageSpan(buf, n) == 1 + if Room(buf, n) == n then 0 else PageSpan(buf + Room(buf, n), n - Room(buf, n))
  {
  }

  /** Exactly as many pieces as pages touched. */
  lemma {:induction false} PieceCount(mr: Region, buf: nat, n: nat)
    requires mr.Has(buf, n)
    ensures |Pieces(mr, buf, n)| == if n == 0 then 0 else PageSpan(buf, n)
    decreases n
  {
    hide PageOf, InPage, Region.NPages, Region.First, PageSpan;
    if n > 0 {
      var k := Room(buf, n);
      PageSpanStep(buf, n);
      PieceCount(mr, buf + k, n - k);
    }
  }

  /** Five entries are enough for anything up to four pages and one byte, wherever it
      starts, and for no more. */
  lemma FiveEnough(n: nat)
    ensures (forall buf: nat :: PageSpan(buf, n) <= IOV) <==> n <= 4 * PAGE + 1
  {
    if n > 4 * PAGE + 1 {
      assert PageSpan(PAGE - 1, n) > IOV;
    }
  }

  /** A segment of the usual size touches at most two pages. */
  lemma SegmentTwoPages(mr: Region, buf: nat, n: nat)
    requires mr.Has(buf, n) && n <= DDP_SEGLEN
    ensures |Pieces(mr, buf, n)| <= 2
  {
    PieceCount(mr, buf, n);
  }

  // ----- reading through the pieces -----

  /** What a vector of pieces holds, for user memory `mem`. */
  function Gather(mem: Bytes, mr: Region, ps: seq<Piece>): Bytes {
    if ps == [] then []
    else
      (if Address(mr, ps[0]) + ps[0].len <= |mem| then mem[Address(mr, ps[0])..Address(mr, ps[0]) + ps[0].len] else [])
      + Gather(mem, mr, ps[1..])
  }

  lemma {:induction false} GatherIs(mem: Bytes, mr: Region, buf: nat, n: nat)
    requires mr.Has(buf, n) && buf + n <= |mem|
    ensures Gather(mem, mr, Pieces(mr, buf, n)) == mem[buf..buf + n]
    decreases n
  {
    hide PageOf, InPage, Region.NPages, Region.First;
    if n > 0 {
      var k := Room(buf, n);
      var ps := Pieces(mr, buf, n);
      PageListed(mr, buf);
      PageOfFirst(mr, buf);
      GatherIs(mem, mr, buf + k, n - k);
      assert ps[1..] == Pieces(mr, buf + k, n - k);
      assert mem[buf..buf + n] == mem[buf..buf + k] + mem[buf + k..buf + n];
    }
  }

  // ----- the loops -----

  function Pages(ps: seq<Piece>): multiset<nat> {
    if ps == [] then multiset{} else multiset{ps[0].page} + Pages(ps[1..])
  }

  lemma {:induction false} PagesPush(ps: seq<Piece>, p: Piece)
    ensures Pages(ps + [p]) == Pages(ps) + multiset{p.page}
  {
    if ps == [] {
      assert [p][1..] == [] && [] + [p] == [p];
    } else {
      assert (ps + [p])[1..] == ps[1..] + [p];
      PagesPush(ps[1..], p);
    }
  }

  /** Each page that the range touches is mapped once, by its place in the region's list, and
      no other. */
  lemma {:induction false} MappedOnce(mr: Region, buf: nat, n: nat, p: nat)
    requires mr.Has(buf, n) && mr.start / 4096 <= buf / 4096
    ensures Pages(Pieces(mr, buf, n))[p] ==
            if n > 0 && buf / 4096 <= mr.start / 4096 + p <= (buf + n - 1) / 4096 then 1 else 0
    decreases n
  {
    hide Pieces, Pages;
    PagesNone();
    if n > 0 {
      var k := Room(buf, n);
      PiecesStep(mr, buf, n);
      var piece := Piece(PageOf(buf) - mr.First(), InPage(buf), k);
      PagesHead(piece, Pieces(mr, buf + k, n - k));
      LaterPages(buf, n);
      MappedOnce(mr, buf + k, n - k, p);
    } else {
      PiecesNone(mr, buf);
    }
  }

  lemma PagesNone()
    ensures Pages([]) == multiset{}
  {
  }

  lemma PiecesNone(mr: Region, buf: nat)
    requires mr.Has(buf, 0)
    ensures Pieces(mr, buf, 0) == []
  {
  }

  lemma PagesHead(p: Piece, ps: seq<Piece>)
    ensures Pages([p] + ps) == multiset{p.page} + Pages(ps)
  {
    assert ([p] + ps)[1..] == ps;
  }

  /** What follows the first piece begins a new page. */
  lemma LaterPages(buf: nat, n: nat)
    requires n > 0
    ensures var k := Room(buf, n);
            k < n ==> (buf + k) / 4096 == buf / 4096 + 1 && buf / 4096 < (buf + n - 1) / 4096
    ensures Room(buf, n) == n ==> (buf + n - 1) / 4096 == buf / 4096
  {
  }

  lemma PiecesStep(mr: Region, buf: nat, n: nat)
    requires mr.Has(buf, n) && n > 0
    ensures mr.First() <= PageOf(buf)
    ensures Pieces(mr, buf, n)
         == [Piece(PageOf(buf) - mr.First(), InPage(buf), Room(buf, n))] + Pieces(mr, buf + Room(buf, n), n - Room(buf, n))
  {
    PageListed(mr, buf);
  }

  class Kernel {
    const mr: Region
    /** Pages mapped with kmap and not yet unmapped. */
    var mapped: multiset<nat>
    var sendMsn: nat
    var sent: seq<Segment>

    constructor (mr: Region)
      ensures this.mr == mr && mapped == multiset{} && sendMsn == 1 && sent == []
    {
      this.mr, mapped, sendMsn, sent := mr, multiset{}, 1, [];
    }

    /** mem_fill_iovec into `iov`, from entry 0 on: fails, with the pages it has mapped left
        mapped, exactly when the pieces do not fit. */
    method FillIovec(buf0: nat, len: nat, iov: array<Piece>) returns (ok: bool, numiov: nat)
      requires mr.Has(buf0, len)
      modifies `mapped, iov
      ensures ok <==> |Pieces(mr, buf0, len)| <= iov.Length
      ensures ok ==>
                && numiov == |Pieces(mr, buf0, len)| && iov[..numiov] == Pieces(mr, buf0, len)
                && Besides(mapped, old(mapped), Pages(Pieces(mr, buf0, len)))
      ensures !ok ==>
                Besides(mapped, old(mapped), Pages(Pieces(mr, buf0, len)[..iov.Length + 1]))
    {
      hide PageOf, InPage, Pieces, Room, Pages, Besides;
      var buf, left := buf0, len;
      numiov := 0;
      ghost var all := Pieces(mr, buf0, len);
      NoPieces(mr, buf0 + len);
      NothingMore(mapped, mapped);
      assert all[..0] == [];
      while left > 0
        invariant 0 <= left && mr.Has(buf, left) && buf + left == buf0 + len && numiov <= iov.Length
        invariant numiov <= |all| && all[numiov..] == Pieces(mr, buf, left)
        invariant iov[..numiov] == all[..numiov]
        invariant Besides(mapped, old(mapped), Pages(all[..numiov]))
        decreases left
      {
        PiecesStep(mr, buf, left);
        PageListed(mr, buf);
        var pageIndex := PageOf(buf) - mr.First();
        var pageOffset := InPage(buf);
        var numbytes := Room(buf, left);
        assert all[numiov..][0] == all[numiov] == Piece(pageIndex, pageOffset, numbytes);
        assert all[..numiov + 1] == all[..numiov] + [all[numiov]];
        PagesPush(all[..numiov], all[numiov]);
        PutIn(mapped, old(mapped), Pages(all[..numiov]), pageIndex);
        mapped := mapped + multiset{pageIndex};
        if numiov == iov.Length {
          return false, numiov;
        }
        iov[numiov] := Piece(pageIndex, pageOffset, numbytes);
        assert all[numiov + 1..] == all[numiov..][1..];
        numiov := numiov + 1;
        left := left - numbytes;
        buf := buf + numbytes;
      }
      assert all[..numiov] == all;
      ok := true;
    }

    lemma NoPieces(mr: Region, buf: nat)
      ensures mr.Has(buf, 0) ==> Pieces(mr, buf, 0) == []
      ensures Pages([]) == multiset{}
    {
    }

    /** Besides `rest`, just the pages `more` are mapped. */
    static ghost predicate Besides(m: multiset<nat>, rest: multiset<nat>, more: multiset<nat>) { m == rest + more }

    static lemma PutIn(m: multiset<nat>, base: multiset<nat>, more: multiset<nat>, x: nat)
      requires Besides(m, base, more)
      ensures Besides(m + multiset{x}, base, more + multiset{x})
    {
    }

    static lemma NothingMore(m: multiset<nat>, rest: multiset<nat>)
      ensures Besides(m, rest, multiset{}) <==> m == rest
    {
    }

    /** mem_unmap_iovec undoes exactly what mem_fill_iovec mapped. */
    method UnmapIovec(buf0: nat, len: nat, ghost rest: multiset<nat>)
      requires mr.Has(buf0, len) && Besides(mapped, rest, Pages(Pieces(mr, buf0, len)))
      modifies `mapped
      ensures mapped == rest
    {
      hide PageOf, InPage, Pieces, Room, Pages, Besides;
      var buf, left := buf0, len;
      while left > 0
        invariant 0 <= left && mr.Has(buf, left) && buf + left == buf0 + len
        invariant Besides(mapped, rest, Pages(Pieces(mr, buf, left)))
        decreases left
      {
        UnmapStep(buf, left, mapped, rest);
        var pageIndex := PageOf(buf) - mr.First();
        var numbytes := Room(buf, left);
        mapped := mapped - multiset{pageIndex};
        left := left - numbytes;
        buf := buf + numbytes;
      }
      NoPieces(mr, buf);
      NothingMore(mapped, rest);
    }

    /** The page unmapped in one turn is the first of those still mapped. */
    lemma UnmapStep(buf: nat, left: nat, m: multiset<nat>, rest: multiset<nat>)
      requires mr.Has(buf, left) && left > 0 && Besides(m, rest, Pages(Pieces(mr, buf, left)))
      ensures mr.First() <= PageOf(buf)
      ensures Besides(m - multiset{PageOf(buf) - mr.First()}, rest,
                   Pages(Pieces(mr, buf + Room(buf, left), left - Room(buf, left))))
    {
      hide PageOf, InPage, Pieces, Room, Pages, Besides;
      PiecesStep(mr, buf, left);
      var later := Pieces(mr, buf + Room(buf, left), left - Room(buf, left));
      PagesFirst(Piece(PageOf(buf) - mr.First(), InPage(buf), Room(buf, left)), later);
      TakeOut(m, rest, Pages(later), PageOf(buf) - mr.First());
    }

    lemma TakeOut(m: multiset<nat>, rest: multiset<nat>, more: multiset<nat>, x: nat)
      requires Besides(m, rest, multiset{x} + more)
      ensures Besides(m - multiset{x}, rest, more)
    {
    }

    lemma PagesFirst(p: Piece, ps: seq<Piece>)
      ensures Pages([p] + ps) == multiset{p.page} + Pages(ps)
    {
      assert ([p] + ps)[1..] == ps;
    }

    /** mpa_send: the segment goes out, or the connection fails. */
    method MpaSend(g: Segment) returns (ok: bool)
      modifies `sent
      ensures sent == if ok then old(sent) + [g] else old(sent)
    {
      if * {
        return false;
      }
      sent := sent + [g];
      return true;
    }

    /** One turn of the loop in ddp_send_utm: map and gather, send, unmap. */
    method SendPart(d: Dest, mo: nat, last: bool, mem: Bytes, at: nat, n: nat) returns (ok: bool)
      requires mr.Has(at, n) && at + n <= |mem| && n <= DDP_SEGLEN
      modifies `mapped, `sent
      ensures mapped == old(mapped)
      ensures sent == if ok then old(sent) + [Seg(d, mo, last, mem[at..at + n])] else old(sent)
    {
      hide PageOf, InPage, Pieces, Room, Pages, Seg, Gather, Besides;
      var iov := new Piece[IOV](_ => Piece(0, 0, 0));
      SegmentTwoPages(mr, at, n);
      var filled, numiov := FillIovec(at, n, iov);
      if !filled {
        return false;
      }
      GatherIs(mem, mr, at, n);
      ok := MpaSend(Seg(d, mo, last, Gather(mem, mr, iov[..numiov])));
      UnmapIovec(at, n, old(mapped));
    }

    /** ddp_send_utm for a message in user memory: segments, each gathered from its pages.
        Nothing stays mapped, whether or not a segment fails to go out; nothing else fails,
        for the overflow branch is never taken. */
    method SendUtm(mem: Bytes, msg: nat, msgLen: nat, sgmntLen: nat, qn: nat, op: Opcode) returns (ok: bool)
      requires mr.Has(msg, msgLen) && msg + msgLen <= |mem| && 20 < sgmntLen <= DDP_SEGLEN
      modifies `mapped, `sent, `sendMsn
      ensures mapped == old(mapped) && sendMsn == old(sendMsn) + if ok then 1 else 0
      ensures var all := Cut(ToQueue(qn, old(sendMsn), op), sgmntLen - 20, mem[msg..msg + msgLen], 0);
              if ok then sent == old(sent) + all else old(sent) <= sent < old(sent) + all
    {
      hide PageOf, InPage, Pieces, Room, Pages, Cut, Seg, NumSegments, Gather;
      var max := sgmntLen - 20;
      var payldLen := max;
      var numSgmnts := NumSegments(msgLen, max);
      NumSegmentsStep(msgLen, max);
      if numSgmnts == 0 {
        numSgmnts := 1;
      }
      var d := ToQueue(qn, sendMsn, op);
      ghost var data := mem[msg..msg + msgLen];
      ghost var all := Cut(d, max, data, 0);
      CutAt(d, max, data, 0, 0);
      var i, mo := 0, 0;
      while i < numSgmnts
        invariant 0 <= i <= numSgmnts == |all| && 0 <= mo && (i < numSgmnts ==> mo == i * max && payldLen == max)
        invariant sent == old(sent) + all[..i] && mapped == old(mapped) && sendMsn == old(sendMsn)
      {
        CutAt(d, max, data, 0, i);
        Grow(i, max);
        if i == numSgmnts - 1 {
          payldLen := msgLen - mo;
        }
        SliceOf(mem, msg, msgLen, mo, payldLen);
        var sentOne := SendPart(d, mo, i == numSgmnts - 1, mem, msg + mo, payldLen);
        if !sentOne {
          return false;
        }
        assert all[..i + 1] == all[..i] + [all[i]];
        mo := mo + payldLen;
        i := i + 1;
      }
      assert all[..numSgmnts] == all;
      sendMsn := sendMsn + 1;
      return true;
    }

    lemma SliceOf(mem: Bytes, at: nat, len: nat, mo: nat, n: nat)
      requires at + len <= |mem| && mo + n <= len
      ensures mem[at..at + len][mo..mo + n] == mem[at + mo..at + mo + n]
      ensures mo + n == len ==> mem[at..at + len][mo..] == mem[at + mo..at + mo + n]
    {
      var s, t := mem[at..at + len], mem[at + mo..at + mo + n];
      forall k | 0 <= k < n ensures s[mo..mo + n][k] == t[k] {
        assert s[mo..mo + n][k] == s[mo + k] == mem[at + (mo + k)];
      }
      assert mo + n == len ==> s[mo..] == s[mo..mo + n];
    }

    /** The page loop inside ddp_send_tm, for one segment; `mo` moves along. */
    method FillSegment(buf: nat, mo0: nat, payldLen: nat, iov: array<Piece>) returns (ok: bool, mo: nat, numiov: nat)
      requires mr.Has(buf + mo0, payldLen)
      modifies iov
      ensures ok <==> |Pieces(mr, buf + mo0, payldLen)| <= iov.Length
      ensures ok ==>
                && mo == mo0 + payldLen && numiov == |Pieces(mr, buf + mo0, payldLen)|
                && iov[..numiov] == Pieces(mr, buf + mo0, payldLen)
    {
      hide PageOf, InPage, Pieces, Room;
      mo, numiov := mo0, 0;
      var left := payldLen;
      ghost var all := Pieces(mr, buf + mo0, payldLen);
      NoPieces(mr, buf + mo0 + payldLen);
      while left > 0
        invariant 0 <= left && mr.Has(buf + mo, left) && mo + left == mo0 + payldLen && numiov <= iov.Length
        invariant numiov <= |all| && all[numiov..] == Pieces(mr, buf + mo, left)
        invariant iov[..numiov] == all[..numiov]
        decreases left
      {
        PiecesStep(mr, buf + mo, left);
        var pageIndex := PageOf(buf + mo) - mr.First();
        var pageOffset := InPage(buf + mo);
        var numbytes := Room(buf + mo, left);
        assert all[numiov..][0] == all[numiov];
        if numiov == iov.Length {
          return false, mo, numiov;
        }
        iov[numiov] := Piece(pageIndex, pageOffset, numbytes);
        assert all[numiov + 1..] == all[numiov..][1..];
        assert all[..numiov + 1] == all[..numiov] + [all[numiov]];
        numiov := numiov + 1;
        left := left - numbytes;
        mo := mo + numbytes;
      }
      assert all[..numiov] == all;
      ok := true;
    }

    /** The loops of ddp_send_tm that map all pages of the region and unmap them again. */
    static function AllPages(n: nat): multiset<nat> {
      if n == 0 then multiset{} else AllPages(n - 1) + multiset{n - 1}
    }

    /** Each page of the region once, and no other. */
    static lemma {:induction false} AllPagesOnce(n: nat, p: nat)
      ensures AllPages(n)[p] == if p < n then 1 else 0
    {
      if n > 0 {
        AllPagesOnce(n - 1, p);
      }
    }

    method MapRegion()
      modifies `mapped
      ensures Besides(mapped, old(mapped), AllPages(mr.NPages()))
    {
      hide Region.NPages, Besides, AllPages;
      var i := 0;
      MapNone(mapped);
      while i < mr.NPages()
        invariant 0 <= i <= mr.NPages() && Besides(mapped, old(mapped), AllPages(i))
      {
        MapOne(mapped, old(mapped), i);
        mapped := mapped + multiset{i};
        i := i + 1;
      }
    }

    static lemma MapNone(m: multiset<nat>)
      ensures Besides(m, m, AllPages(0))
    {
    }

    static lemma MapOne(m: multiset<nat>, base: multiset<nat>, i: nat)
      requires Besides(m, base, AllPages(i))
      ensures Besides(m + multiset{i}, base, AllPages(i + 1))
    {
    }

    /** The pages are unmapped in the order in which they were mapped. */
    method UnmapRegion(ghost rest: multiset<nat>)
      requires Besides(mapped, rest, AllPages(mr.NPages()))
      modifies `mapped
      ensures mapped == rest
    {
      hide Region.NPages, AllPages, PagesFrom, Besides;
      var i := 0;
      ghost var n := mr.NPages();
      AllPagesAre(n);
      while i < mr.NPages()
        invariant 0 <= i <= n == mr.NPages() && Besides(mapped, rest, PagesFrom(i, n))
      {
        FirstOfPages(i, n);
        TakeOut(mapped, rest, PagesFrom(i + 1, n), i);
        mapped := mapped - multiset{i};
        i := i + 1;
      }
      NoPagesFrom(n);
      NothingMore(mapped, rest);
    }

    static lemma AllPagesAre(n: nat)
      ensures AllPages(n) == PagesFrom(0, n)
    {
      AllPagesFrom(0, n);
    }

    static lemma NoPagesFrom(n: nat)
      ensures PagesFrom(n, n) == multiset{}
    {
    }

    /** The pages i to n - 1. */
    static function PagesFrom(i: nat, n: nat): multiset<nat>
      decreases n - i
    {
      if i >= n then multiset{} else multiset{i} + PagesFrom(i + 1, n)
    }

    static lemma FirstOfPages(i: nat, n: nat)
      requires i < n
      ensures PagesFrom(i, n) == multiset{i} + PagesFrom(i + 1, n)
    {
    }

    static lemma {:induction false} AllPagesFrom(i: nat, n: nat)
      requires i <= n
      ensures AllPages(n) == AllPages(i) + PagesFrom(i, n)
      decreases n - i
    {
      if i < n {
        AllPagesFrom(i + 1, n);
        FirstOfPages(i, n);
        assert AllPages(i + 1) == AllPages(i) + multiset{i};
        assert AllPages(i) + multiset{i} + PagesFrom(i + 1, n) == AllPages(i) + (multiset{i} + PagesFrom(i + 1, n));
      }
    }

    static lemma StillMapped(m: multiset<nat>, rest: multiset<nat>, more: multiset<nat>)
      requires Besides(m, rest, more)
      ensures m == rest + more
    {
    }

    /** ddp_send_tm. All pages of the region are mapped meanwhile; afterwards none is, but when
        a segment fails to go out they all stay mapped. Unlike the user-space form it sends
        one empty segment for a message of no bytes. */
    method SendTm(mem: Bytes, buf: nat, msgLen: nat, sgmntLen: nat, op: Opcode, stag: nat, to: nat) returns (ok: bool)
      requires mr.Has(buf, msgLen) && buf + msgLen <= |mem| && 16 < sgmntLen <= DDP_SEGLEN
      modifies `mapped, `sent
      ensures if ok then mapped == old(mapped) else mapped == old(mapped) + AllPages(mr.NPages())
      ensures var all := Cut(ToTag(stag, to, op), sgmntLen - 16, mem[buf..buf + msgLen], 0);
              if ok then sent == old(sent) + all else old(sent) <= sent < old(sent) + all
    {
      hide PageOf, InPage, Pieces, Room, Cut, Seg, NumSegments, Gather, AllPages, Besides;
      var max := sgmntLen - 16;
      var payldLen := max;
      var numSgmnts := NumSegments(msgLen, max);
      NumSegmentsStep(msgLen, max);
      if numSgmnts == 0 {
        numSgmnts := 1;
      }
      var d := ToTag(stag, to, op);
      ghost var data := mem[buf..buf + msgLen];
      ghost var all := Cut(d, max, data, 0);
      CutAt(d, max, data, 0, 0);
      MapRegion();
      var i, mo := 0, 0;
      while i < numSgmnts
        invariant 0 <= i <= numSgmnts == |all| && 0 <= mo && (i < numSgmnts ==> mo == i * max && payldLen == max)
        invariant sent == old(sent) + all[..i] && Besides(mapped, old(mapped), AllPages(mr.NPages()))
      {
        CutAt(d, max, data, 0, i);
        Grow(i, max);
        var at := mo;
        if i == numSgmnts - 1 {
          payldLen := msgLen - mo;
        }
        var iov := new Piece[IOV](_ => Piece(0, 0, 0));
        SegmentTwoPages(mr, buf + mo, payldLen);
        var filled, numiov;
        filled, mo, numiov := FillSegment(buf, mo, payldLen, iov);
        if !filled {
          return false;
        }
        GatherIs(mem, mr, buf + at, payldLen);
        SliceOf(mem, buf, msgLen, at, payldLen);
        var gone := MpaSend(Seg(d, at, i == numSgmnts - 1, Gather(mem, mr, iov[..numiov])));
        if !gone {
          StillMapped(mapped, old(mapped), AllPages(mr.NPages()));
          return false;
        }
        assert all[..i + 1] == all[..i] + [all[i]];
        i := i + 1;
      }
      assert all[..numSgmnts] == all;
      UnmapRegion(old(mapped));
      return true;
    }
  }
}
