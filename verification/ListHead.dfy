/** list.h: circular doubly linked lists, and the sequences they stand for. */
module ListHead {

  class Link {
    var next: Link
    var prev: Link

    /** INIT_LIST_HEAD. */
    constructor ()
      ensures next == this && prev == this && Linked([this])
    {
      next, prev := this, this;
    }
  }

  ghost predicate Distinct(s: seq<Link>) { forall i, j :: 0 <= i < j < |s| ==> s[i] != s[j] }

  /** s[0] is the list head; the rest are the entries in order, all linked in a circle. */
  ghost predicate Linked(s: seq<Link>)
    reads s
  {
    && s != [] && Distinct(s)
    && (forall i :: 0 <= i < |s| - 1 ==> s[i].next == s[i + 1])
    && (forall i :: 0 < i < |s| ==> s[i].prev == s[i - 1])
    && s[|s| - 1].next == s[0] && s[0].prev == s[|s| - 1]
  }

  /** list_empty. */
  method IsEmpty(head: Link, ghost s: seq<Link>) returns (empty: bool)
    requires Linked(s) && s[0] == head
    ensures empty <==> |s| == 1
  {
    assert |s| > 1 ==> s[0].next == s[0 + 1] && s[0] != s[1];
    empty := head.next == head;
  }

  /** list_add: a stack. */
  method Add(entry: Link, head: Link, ghost s: seq<Link>)
    requires Linked(s) && s[0] == head && entry !in s
    modifies entry, head, head.next
    ensures Linked([head, entry] + s[1..])
  {
    ghost var t := [head, entry] + s[1..];
    Insert(entry, head, head.next, s, 0);
    assert s[..1] + [entry] + s[1..] == t;
  }

  /** list_add_tail: a queue. */
  method AddTail(entry: Link, head: Link, ghost s: seq<Link>)
    requires Linked(s) && s[0] == head && entry !in s
    modifies entry, head, head.prev
    ensures Linked(s + [entry])
  {
    Insert(entry, head.prev, head, s, |s| - 1);
    assert s[..|s|] + [entry] + s[|s|..] == s + [entry];
  }

  /** __list_add, after position k of the circle. */
  method Insert(entry: Link, prev: Link, next: Link, ghost s: seq<Link>, ghost k: nat)
    requires Linked(s) && k < |s| && entry !in s
    requires prev == s[k] && next == (if k + 1 < |s| then s[k + 1] else s[0])
    modifies entry, prev, next
    ensures Linked(s[..k + 1] + [entry] + s[k + 1..])
  {
    next.prev := entry;
    entry.next := next;
    entry.prev := prev;
    prev.next := entry;
    ghost var t := s[..k + 1] + [entry] + s[k + 1..];
    forall i | 0 <= i < |t| ensures t[i] == if i <= k then s[i] else if i == k + 1 then entry else s[i - 1] {
    }
  }

  /** list_del: the entry's own pointers are left as they were. */
  method Del(entry: Link, ghost s: seq<Link>, ghost k: nat)
    requires Linked(s) && 0 < k < |s| && s[k] == entry
    modifies entry.prev, entry.next
    ensures Linked(s[..k] + s[k + 1..])
    ensures entry.next == old(entry.next) && entry.prev == old(entry.prev)
  {
    var prev, next := entry.prev, entry.next;
    assert prev == s[k - 1] && next == if k + 1 < |s| then s[k + 1] else s[0];
    ghost var t := s[..k] + s[k + 1..];
    Without(s, k);
    next.prev := prev;
    prev.next := next;
    forall i | 0 <= i < |t| - 1 ensures t[i].next == t[i + 1] {
      assert t[i] == s[if i < k then i else i + 1];
    }
    forall i | 0 < i < |t| ensures t[i].prev == t[i - 1] {
      assert t[i] == s[if i < k then i else i + 1];
    }
  }

  lemma Without(s: seq<Link>, k: nat)
    requires Distinct(s) && k < |s|
    ensures var t := s[..k] + s[k + 1..];
            && Distinct(t) && (forall i :: 0 <= i < |t| ==> t[i] == s[if i < k then i else i + 1])
  {
  }

  /** list_splice: the entries of one list go in front of those of the other. The spliced
      list's head still points at them. */
  method Splice(list: Link, head: Link, ghost s: seq<Link>, ghost t: seq<Link>)
    requires Linked(s) && s[0] == head && Linked(t) && t[0] == list
    requires forall x :: x in s ==> x !in t
    modifies head, list.next, list.prev, head.next
    ensures Linked([head] + t[1..] + s[1..])
    ensures list.next == old(list.next) && list.prev == old(list.prev)
  {
    var empty := IsEmpty(list, t);
    ghost var r := [head] + t[1..] + s[1..];
    if empty {
      assert r == s;
    } else {
      var first, last, at := list.next, list.prev, head.next;
      assert t[0].next == t[0 + 1] && first == t[1] && last == t[|t| - 1];
      assert at == if |s| > 1 then s[0 + 1] else s[0];
      Joined(s, t);
      first.prev := head;
      head.next := first;
      last.next := at;
      at.prev := last;
      assert r[0] == head && r[|t| - 1] == last && (|s| > 1 ==> r[|t|] == at);
      forall i | 0 <= i < |r| - 1 ensures r[i].next == r[i + 1] {
        if i > 0 && i != |t| - 1 {
          if i < |t| {
            assert r[i] == t[i] && r[i + 1] == t[i + 1] && old(t[i].next) == t[i + 1];
          } else {
            var k := i - |t| + 1;
            assert r[i] == s[k] && r[i + 1] == s[k + 1] && old(s[k].next) == s[k + 1];
          }
        }
      }
      forall i | 0 < i < |r| ensures r[i].prev == r[i - 1] {
        if i > 1 && i != |t| {
          if i < |t| {
            assert r[i] == t[i] && r[i - 1] == t[i - 1] && old(t[i].prev) == t[i - 1];
          } else {
            var k := i - |t| + 1;
            assert r[i] == s[k] && r[i - 1] == s[k - 1] && old(s[k].prev) == s[k - 1];
          }
        }
      }
    }
  }

  lemma Joined(s: seq<Link>, t: seq<Link>)
    requires s != [] && t != [] && Distinct(s) && Distinct(t) && forall x :: x in s ==> x !in t
    ensures var r := [s[0]] + t[1..] + s[1..];
            && (forall i :: 0 < i < |t| ==> r[i] == t[i]) && (forall i :: |t| <= i < |r| ==> r[i] == s[i - |t| + 1])
            && Distinct(r)
  {
    var r := [s[0]] + t[1..] + s[1..];
    forall i, j | 0 <= i < j < |r| ensures r[i] != r[j] {
      assert s[0] in s && (i >= |t| ==> r[i] == s[i - |t| + 1] && r[i] in s) && (j >= |t| ==> r[j] == s[j - |t| + 1] && r[j] in s);
      assert (0 < i < |t| ==> r[i] == t[i] && t[i] in t) && (j < |t| ==> r[j] == t[j] && t[j] in t);
    }
  }
}
