/** How an FPDU with markers looks on the wire: the bytes of header, payload and pad,
    with a marker woven in wherever the marker position comes due. */
module MpaLayout {

  type byte = x: int | 0 <= x < 256

  type Bytes = seq<byte>

  /** How many values a uint32_t and a size_t have. */
  const TWO32: nat := 0x1_0000_0000

  const TWO64: nat := 0x1_0000_0000_0000_0000

  function SizeT(x: int): (r: nat)
    ensures r < TWO64
  {
    x % TWO64
  }

  const WORD_SZ: nat := 4
  const CRC_SZ: nat := 4
  const MARKER_SZ: nat := 4
  const MARKER_PERIOD: nat := 512
  const PAYLD_CHNK: nat := 508

  // ----- sixteen-bit fields -----

  function Low(v: nat): byte { v % 256 }

  function High(v: nat): byte { v / 256 % 256 }

  function Join(low: byte, high: byte): nat { low + 256 * high }

  lemma JoinSplit(v: nat)
    requires v < 0x1_0000
    ensures Join(Low(v), High(v)) == v
  {
  }

  /** marker_t: two reserved bytes, then the distance back to the start of the FPDU in
      sixteen bits, low byte first. */
  function Marker(ptr: nat): (m: Bytes)
    ensures |m| == MARKER_SZ
  {
    [0, 0, Low(ptr), High(ptr)]
  }

  function MarkerPtr(m: Bytes): nat
    requires |m| == MARKER_SZ
  {
    Join(m[2], m[3])
  }

  lemma MarkerRoundTrip(ptr: nat)
    requires ptr < 0x1_0000
    ensures MarkerPtr(Marker(ptr)) == ptr
  {
    hide Join, Low, High;
    JoinSplit(ptr);
  }

  function Pad(len: nat): (p: nat)
    ensures p < WORD_SZ && (len + p) % WORD_SZ == 0
  {
    WORD_SZ * ((len + WORD_SZ - 1) / WORD_SZ) - len
  }

  function Zeros(n: nat): (z: Bytes)
    ensures |z| == n
  {
    if n == 0 then [] else [0] + Zeros(n - 1)
  }

  lemma {:induction false} ZerosAt(n: nat, k: nat)
    requires k < n
    ensures Zeros(n)[k] == 0
  {
    if k > 0 {
      ZerosAt(n - 1, k - 1);
    }
  }

  // ----- one FPDU -----

  /** The layout from position `cp` of the FPDU on, when the next marker is due at `mp`. */
  function Lay(cp: nat, mp: nat, body: Bytes): Bytes
    requires cp <= mp
    decreases |body|, if cp == mp then 1 else 0
  {
    var n := mp - cp;
    if |body| < n then body
    else body[..n] + Marker(mp) + Lay(mp + MARKER_SZ, mp + MARKER_PERIOD, body[n..])
  }

  /** How many markers that layout holds. */
  function Marks(cp: nat, mp: nat, len: nat): nat {
    if cp + len < mp then 0 else 1 + (cp + len - mp) / PAYLD_CHNK
  }

  lemma {:induction false} LayLength(cp: nat, mp: nat, body: Bytes)
    requires cp <= mp
    ensures |Lay(cp, mp, body)| == |body| + MARKER_SZ * Marks(cp, mp, |body|)
    decreases |body|, if cp == mp then 1 else 0
  {
    hide Marker;
    var n := mp - cp;
    if |body| >= n {
      LayLength(mp + MARKER_SZ, mp + MARKER_PERIOD, body[n..]);
    }
  }

  /** Up to the next marker the layout is the body itself. */
  lemma LayChunk(cp: nat, mp: nat, chunk: Bytes, rest: Bytes)
    requires cp + |chunk| <= mp
    ensures Lay(cp, mp, chunk + rest) == chunk + Lay(cp + |chunk|, mp, rest)
  {
    hide Marker;
    var n := mp - cp;
    if |chunk + rest| >= n {
      assert (chunk + rest)[..n] == chunk + rest[..n - |chunk|];
      assert (chunk + rest)[n..] == rest[n - |chunk|..];
    }
  }

  lemma LayMark(mp: nat, body: Bytes)
    ensures Lay(mp, mp, body) == Marker(mp) + Lay(mp + MARKER_SZ, mp + MARKER_PERIOD, body)
  {
    assert body[..0] + Marker(mp) == Marker(mp) && body[0..] == body;
  }

  lemma LayNothing(cp: nat, mp: nat)
    requires cp <= mp
    ensures Lay(cp, mp, []) == if cp == mp then Marker(mp) else []
  {
    if cp == mp {
      LayMark(mp, []);
    }
  }

  // ----- the same seen from the whole stream -----

  /** The first multiple of 512 not before `pos`. */
  function NextMark(pos: nat): (m: nat)
    ensures pos <= m < pos + MARKER_PERIOD && m % MARKER_PERIOD == 0
  {
    (pos + MARKER_PERIOD - 1) / MARKER_PERIOD * MARKER_PERIOD
  }

  lemma NextMarkUnique(pos: nat, m: nat)
    requires pos <= m < pos + MARKER_PERIOD && m % MARKER_PERIOD == 0
    ensures m == NextMark(pos)
  {
  }

  predicate Due(pos: nat) { pos % MARKER_PERIOD == 0 }

  lemma NotDueAfterMarker(pos: nat)
    requires Due(pos)
    ensures !Due(pos + MARKER_SZ)
  {
  }

  lemma DueWithin(start: nat, cp: nat, mp: nat)
    requires cp <= mp < cp + MARKER_PERIOD && Due(start + mp)
    ensures Due(start + cp) <==> cp == mp
    ensures Due(start + (mp + MARKER_PERIOD))
  {
  }

  /** Reference definition: walk along the stream byte by byte and put a marker, pointing
      back to `start`, at every position that is a multiple of 512. */
  function Weave(pos: nat, start: nat, body: Bytes): Bytes
    requires start <= pos
    decreases |body|, if Due(pos) then 1 else 0
  {
    if Due(pos) then Marker(pos - start) + Weave(pos + MARKER_SZ, start, body)
    else if body == [] then []
    else [body[0]] + Weave(pos + 1, start, body[1..])
  }

  /** Counting from the start of the FPDU gives the same as counting in the stream. */
  lemma {:induction false} LayIsWeave(start: nat, cp: nat, mp: nat, body: Bytes)
    requires cp <= mp < cp + MARKER_PERIOD && Due(start + mp)
    ensures Lay(cp, mp, body) == Weave(start + cp, start, body)
    decreases |body|, if cp == mp then 1 else 0
  {
    hide Marker, Due, Lay;
    DueWithin(start, cp, mp);
    if cp == mp {
      LayMark(mp, body);
      LayIsWeave(start, cp + MARKER_SZ, mp + MARKER_PERIOD, body);
    } else if body != [] {
      LayChunk(cp, mp, [body[0]], body[1..]);
      assert body == [body[0]] + body[1..];
      LayIsWeave(start, cp + 1, mp, body[1..]);
    } else {
      LayNothing(cp, mp);
    }
  }

  lemma Later(a: Bytes, b: Bytes, k: nat)
    requires |a| <= k && k + MARKER_SZ <= |a + b|
    ensures (a + b)[k..k + MARKER_SZ] == b[k - |a|..k - |a| + MARKER_SZ]
  {
  }

  /** Every multiple of 512 that the FPDU covers holds a marker to its start. */
  lemma {:induction false} MarkerAt(pos: nat, start: nat, body: Bytes, k: nat)
    requires start <= pos && Due(pos + k) && k < |Weave(pos, start, body)|
    ensures k + MARKER_SZ <= |Weave(pos, start, body)|
    ensures Weave(pos, start, body)[k..k + MARKER_SZ] == Marker(pos + k - start)
    decreases |body|, if Due(pos) then 1 else 0
  {
    hide Marker, Due;
    if Due(pos) {
      if k > 0 {
        DueApart(pos, k);
        NotDueAfterMarker(pos);
        var w := Weave(pos + MARKER_SZ, start, body);
        MarkerAt(pos + MARKER_SZ, start, body, k - MARKER_SZ);
        Later(Marker(pos - start), w, k);
      } else {
        assert Weave(pos, start, body)[..MARKER_SZ] == Marker(pos - start);
      }
    } else {
      assert k > 0 && body != [];
      var w := Weave(pos + 1, start, body[1..]);
      MarkerAt(pos + 1, start, body[1..], k - 1);
      Later([body[0]], w, k);
    }
  }

  lemma DueApart(pos: nat, k: nat)
    requires Due(pos) && Due(pos + k) && k > 0
    ensures k >= MARKER_PERIOD
  {
  }

  /** Taking four bytes out at every multiple of 512. */
  function Strip(pos: nat, wire: Bytes): Bytes
    decreases |wire|
  {
    if wire == [] then []
    else if Due(pos) then
      if |wire| < MARKER_SZ then [] else Strip(pos + MARKER_SZ, wire[MARKER_SZ..])
    else [wire[0]] + Strip(pos + 1, wire[1..])
  }

  lemma {:induction false} StripWeave(pos: nat, start: nat, body: Bytes)
    requires start <= pos
    ensures Strip(pos, Weave(pos, start, body)) == body
    decreases |body|, if Due(pos) then 1 else 0
  {
    hide Marker;
    if Due(pos) {
      StripWeave(pos + MARKER_SZ, start, body);
      var rest := Weave(pos + MARKER_SZ, start, body);
      assert (Marker(pos - start) + rest)[MARKER_SZ..] == rest;
    } else if body != [] {
      StripWeave(pos + 1, start, body[1..]);
      var rest := Weave(pos + 1, start, body[1..]);
      assert ([body[0]] + rest)[1..] == rest;
    }
  }

  lemma StripMarker(pos: nat, m: Bytes, rest: Bytes)
    requires Due(pos) && |m| == MARKER_SZ
    ensures Strip(pos, m + rest) == Strip(pos + MARKER_SZ, rest)
  {
    assert (m + rest)[MARKER_SZ..] == rest;
  }

  lemma StripByte(pos: nat, b: byte, rest: Bytes)
    requires !Due(pos)
    ensures Strip(pos, [b] + rest) == [b] + Strip(pos + 1, rest)
  {
    assert ([b] + rest)[1..] == rest;
  }

  lemma Assoc3(a: Bytes, b: Bytes, c: Bytes)
    ensures a + b + c == a + (b + c)
  {
  }

  lemma WeaveStep(pos: nat, start: nat, body: Bytes)
    requires start <= pos
    ensures Weave(pos, start, body) ==
            if Due(pos) then Marker(pos - start) + Weave(pos + MARKER_SZ, start, body)
            else if body == [] then []
            else [body[0]] + Weave(pos + 1, start, body[1..])
  {
    hide Due, Marker;
  }

  /** The same for an FPDU with more of the stream behind it. */
  lemma {:induction false} StripThen(pos: nat, start: nat, body: Bytes, rest: Bytes)
    requires start <= pos
    ensures Strip(pos, Weave(pos, start, body) + rest) == body + Strip(pos + |Weave(pos, start, body)|, rest)
    decreases |body|, if Due(pos) then 1 else 0
  {
    hide Marker, Strip, Due, Weave;
    WeaveStep(pos, start, body);
    if Due(pos) {
      NotDueAfterMarker(pos);
      var w := Weave(pos + MARKER_SZ, start, body);
      StripThen(pos + MARKER_SZ, start, body, rest);
      Assoc3(Marker(pos - start), w, rest);
      StripMarker(pos, Marker(pos - start), w + rest);
    } else if body != [] {
      var w := Weave(pos + 1, start, body[1..]);
      StripThen(pos + 1, start, body[1..], rest);
      Assoc3([body[0]], w, rest);
      StripByte(pos, body[0], w + rest);
      Assoc3([body[0]], body[1..], Strip(pos + 1 + |w|, rest));
      assert [body[0]] + body[1..] == body;
    } else {
      assert [] + rest == rest && [] + Strip(pos, rest) == Strip(pos, rest);
    }
  }
}
