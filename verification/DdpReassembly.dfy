/** The lists of partly received messages in ddp_process_ulpdu, against a reference that
    looks only at which segments have arrived. The tagged list is keyed by steering tag,
    the untagged one by queue and message number. */
module DdpReassembly {
  import opened MpaLayout
  import opened DdpSegments

  datatype Key = TagKey(stag: nat) | MsgKey(qn: nat, msn: nat)

  /** One segment as the lists see it. */
  datatype Arrival = Arrival(key: Key, len: nat, last: bool)

  datatype Entry = Entry(key: Key, len: nat)

  datatype Maybe = None | Some(len: nat) {
    function OrZero(): nat { if None? then 0 else len }
  }

  // ----- the code's lists -----

  function IndexOf(list: seq<Entry>, key: Key): (i: nat)
    ensures i <= |list| && (i < |list| ==> list[i].key == key)
    ensures forall j :: 0 <= j < i ==> list[j].key != key
  {
    if list == [] then 0
    else if list[0].key == key then 0
    else 1 + IndexOf(list[1..], key)
  }

  function Lookup(list: seq<Entry>, key: Key): Maybe {
    var i := IndexOf(list, key);
    if i < |list| then Some(list[i].len) else None
  }

  /** The list after a segment. */
  function Arrive(list: seq<Entry>, a: Arrival): seq<Entry> {
    var i := IndexOf(list, a.key);
    if i < |list| then
      if a.last then list[..i] + list[i + 1..] else list[i := Entry(a.key, list[i].len + a.len)]
    else if a.last then list
    else list + [Entry(a.key, a.len)]
  }

  /** The length reported when the segment is the last of its message. */
  function Total(list: seq<Entry>, a: Arrival): nat {
    Lookup(list, a.key).OrZero() + a.len
  }

  /** The search loop and what follows it. */
  method Update(list0: seq<Entry>, a: Arrival) returns (list: seq<Entry>, total: nat)
    ensures list == Arrive(list0, a) && total == Total(list0, a)
  {
    hide IndexOf;
    list := list0;
    var i := 0;
    while i < |list|
      invariant 0 <= i <= |list| && list == list0
      invariant forall j :: 0 <= j < i ==> list[j].key != a.key
      invariant i <= IndexOf(list0, a.key)
    {
      if list[i].key == a.key {
        break;
      }
      i := i + 1;
    }
    total := a.len;
    if i < |list| {
      list := list[i := Entry(a.key, list[i].len + a.len)];
      total := list[i].len;
    } else if !a.last {
      list := list + [Entry(a.key, a.len)];
    }
    if a.last && i < |list| {
      list := list[..i] + list[i + 1..];
    }
  }

  // ----- the reference -----

  /** How much of a message that is still open has arrived. */
  function Open(tr: seq<Arrival>, key: Key): Maybe {
    if tr == [] then None
    else
      var a, before := tr[|tr| - 1], tr[..|tr| - 1];
      if a.key != key then Open(before, key)
      else if a.last then None
      else Some(Open(before, key).OrZero() + a.len)
  }

  function Reports(tr: seq<Arrival>): seq<Entry> {
    if tr == [] then []
    else
      var a, before := tr[|tr| - 1], tr[..|tr| - 1];
      Reports(before) + if a.last then [Entry(a.key, Open(before, a.key).OrZero() + a.len)] else []
  }

  /** What the code holds and has reported after a run of segments. */
  function ListAfter(tr: seq<Arrival>): seq<Entry> {
    if tr == [] then [] else Arrive(ListAfter(tr[..|tr| - 1]), tr[|tr| - 1])
  }

  function CodeReports(tr: seq<Arrival>): seq<Entry> {
    if tr == [] then []
    else
      var a, before := tr[|tr| - 1], tr[..|tr| - 1];
      CodeReports(before) + if a.last then [Entry(a.key, Total(ListAfter(before), a))] else []
  }

  predicate Distinct(list: seq<Entry>) {
    forall i, j :: 0 <= i < j < |list| ==> list[i].key != list[j].key
  }

  lemma LookupAt(list: seq<Entry>, i: nat)
    requires Distinct(list) && i < |list|
    ensures Lookup(list, list[i].key) == Some(list[i].len)
  {
    hide IndexOf;
    var j := IndexOf(list, list[i].key);
    assert j <= i;
  }

  lemma LookupIn(list: seq<Entry>, key: Key)
    ensures Lookup(list, key).None? <==> (forall i :: 0 <= i < |list| ==> list[i].key != key)
  {
    hide IndexOf;
  }

  lemma LookupSame(a: seq<Entry>, b: seq<Entry>, key: Key)
    requires Distinct(a) && Distinct(b)
    requires forall i :: 0 <= i < |a| && a[i].key == key ==> a[i] in b
    requires forall i :: 0 <= i < |b| && b[i].key == key ==> b[i] in a
    ensures Lookup(a, key) == Lookup(b, key)
  {
    hide Lookup;
    LookupIn(a, key);
    LookupIn(b, key);
    if i :| 0 <= i < |a| && a[i].key == key {
      LookupAt(a, i);
      var j :| 0 <= j < |b| && b[j] == a[i];
      LookupAt(b, j);
    }
  }

  lemma ArriveDistinct(list: seq<Entry>, a: Arrival)
    requires Distinct(list)
    ensures Distinct(Arrive(list, a))
  {
    hide IndexOf;
  }

  lemma ArriveOther(list: seq<Entry>, a: Arrival, key: Key)
    requires Distinct(list) && key != a.key
    ensures Lookup(Arrive(list, a), key) == Lookup(list, key)
  {
    hide IndexOf, Lookup;
    ArriveDistinct(list, a);
    var i, n := IndexOf(list, a.key), Arrive(list, a);
    forall k | 0 <= k < |list| && list[k].key == key ensures list[k] in n {
      if i < |list| && a.last {
        assert list[k] == if k < i then n[k] else n[k - 1];
      } else {
        assert n[k] == list[k];
      }
    }
    LookupSame(n, list, key);
  }

  lemma ArriveSame(list: seq<Entry>, a: Arrival)
    requires Distinct(list)
    ensures Lookup(Arrive(list, a), a.key) == if a.last then None else Some(Total(list, a))
  {
    hide IndexOf;
    ArriveDistinct(list, a);
    var i, n := IndexOf(list, a.key), Arrive(list, a);
    if a.last {
      LookupIn(n, a.key);
    } else if i < |list| {
      LookupAt(n, i);
    } else {
      LookupAt(n, |list|);
    }
  }

  /** At any moment, and for any segments in any order, the list holds exactly the messages
      that are partly received, with what has come of them; and each LAST reports the sum
      of all segments of its message. */
  lemma {:induction false} ListsExact(tr: seq<Arrival>)
    ensures Distinct(ListAfter(tr))
    ensures forall key :: Lookup(ListAfter(tr), key) == Open(tr, key)
    ensures CodeReports(tr) == Reports(tr)
  {
    hide Lookup, Arrive;
    if tr == [] {
      forall key ensures Lookup([], key) == None { LookupIn([], key); }
    } else {
      var a, before := tr[|tr| - 1], tr[..|tr| - 1];
      ListsExact(before);
      var list := ListAfter(before);
      ArriveDistinct(list, a);
      forall key ensures Lookup(ListAfter(tr), key) == Open(tr, key) {
        if key == a.key {
          ArriveSame(list, a);
        } else {
          ArriveOther(list, a, key);
        }
      }
    }
  }

  // ----- interleaved messages -----

  function OfKey(tr: seq<Arrival>, key: Key): seq<Arrival> {
    if tr == [] then []
    else OfKey(tr[..|tr| - 1], key) + if tr[|tr| - 1].key == key then [tr[|tr| - 1]] else []
  }

  function ReportsOf(r: seq<Entry>, key: Key): seq<Entry> {
    if r == [] then []
    else ReportsOf(r[..|r| - 1], key) + if r[|r| - 1].key == key then [r[|r| - 1]] else []
  }

  lemma OpenPush(tr: seq<Arrival>, a: Arrival, key: Key)
    ensures Open(tr + [a], key) ==
            if a.key != key then Open(tr, key)
            else if a.last then None
            else Some(Open(tr, key).OrZero() + a.len)
    ensures Reports(tr + [a]) ==
            Reports(tr) + if a.last then [Entry(a.key, Open(tr, a.key).OrZero() + a.len)] else []
  {
    assert (tr + [a])[..|tr|] == tr;
  }

  lemma ReportsOfPush(r: seq<Entry>, e: Entry, key: Key)
    ensures ReportsOf(r + [e], key) == ReportsOf(r, key) + if e.key == key then [e] else []
  {
    assert (r + [e])[..|r|] == r;
  }

  /** What is reported for a key depends on that key's own segments alone. */
  lemma {:induction false} OnlyItsOwn(tr: seq<Arrival>, key: Key)
    ensures Open(tr, key) == Open(OfKey(tr, key), key)
    ensures ReportsOf(Reports(tr), key) == Reports(OfKey(tr, key))
  {
    hide Open, Reports, ReportsOf;
    if tr != [] {
      var a, before := tr[|tr| - 1], tr[..|tr| - 1];
      OnlyItsOwn(before, key);
      assert tr == before + [a];
      OpenPush(before, a, key);
      OpenPush(OfKey(before, key), a, key);
      ReportsOfPush(Reports(before), Entry(a.key, Open(before, a.key).OrZero() + a.len), key);
      assert Reports(before) + [] == Reports(before) && OfKey(before, key) + [] == OfKey(before, key);
      assert ReportsOf(Reports(before), key) + [] == ReportsOf(Reports(before), key);
    } else {
      NothingReported(key);
    }
  }

  lemma NothingReported(key: Key)
    ensures Reports([]) == [] && ReportsOf([], key) == []
  {
  }

  function KeyOf(d: Dest): Key {
    match d
    case ToQueue(qn, msn, _) => MsgKey(qn, msn)
    case ToTag(stag, _, _) => TagKey(stag)
  }

  function ArrivalOf(s: Segment): Arrival {
    match s
    case Untagged(qn, msn, _, _, last, data) => Arrival(MsgKey(qn, msn), |data|, last)
    case Tagged(stag, _, _, last, data) => Arrival(TagKey(stag), |data|, last)
  }

  function Arrivals(s: seq<Segment>): seq<Arrival> {
    if s == [] then [] else [ArrivalOf(s[0])] + Arrivals(s[1..])
  }

  /** All segments of one message, after `tr`, with `off` bytes of it already in. */
  lemma {:induction false} CutArrives(tr: seq<Arrival>, d: Dest, max: nat, data: Bytes, off: nat)
    requires max > 0 && off <= |data| && Open(tr, KeyOf(d)).OrZero() == off
    ensures var all := tr + Arrivals(Cut(d, max, data, off));
            Open(all, KeyOf(d)) == None && Reports(all) == Reports(tr) + [Entry(KeyOf(d), |data|)]
    decreases |data| - off
  {
    hide Open, Reports;
    var s := Cut(d, max, data, off);
    var a := ArrivalOf(s[0]);
    var next := tr + [a];
    OpenPush(tr, a, KeyOf(d));
    assert tr + ([a] + Arrivals(s[1..])) == next + Arrivals(s[1..]);
    if |data| - off > max {
      assert s[1..] == Cut(d, max, data, off + max);
      assert Reports(next) == Reports(tr) + [];
      CutArrives(next, d, max, data, off + max);
    } else {
      assert s[1..] == [] && next + [] == next;
    }
  }

  /** However the segments of different messages are interleaved, a message whose own
      segments arrive in order is reported exactly once, with its exact length, and leaves
      nothing behind. */
  lemma ReportedOnce(tr: seq<Arrival>, d: Dest, max: nat, data: Bytes)
    requires max > 0 && OfKey(tr, KeyOf(d)) == Arrivals(Cut(d, max, data, 0))
    ensures ReportsOf(CodeReports(tr), KeyOf(d)) == [Entry(KeyOf(d), |data|)]
    ensures Lookup(ListAfter(tr), KeyOf(d)) == None
  {
    hide Lookup, OfKey, ReportsOf, CodeReports, ListAfter;
    ListsExact(tr);
    OnlyItsOwn(tr, KeyOf(d));
    NothingReported(KeyOf(d));
    CutArrives([], d, max, data, 0);
    assert [] + Arrivals(Cut(d, max, data, 0)) == Arrivals(Cut(d, max, data, 0));
  }
}
