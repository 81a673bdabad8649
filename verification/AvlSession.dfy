/** Any interleaving of table updates and traverser steps, against an ordered list
    with cursors. */
module AvlSession {
  import opened AvlTree
  import opened AvlHeap
  import opened AvlHeight
  import opened AvlTable
  import opened AvlTraverser

  datatype Op = ProbeOp(item: Item) | DeleteOp(key: int) | MoveOp(which: nat, dir: Dir)

  /** A table with traversers, seen from outside. */
  datatype View = View(items: seq<Item>, cursors: seq<Found>)

  ghost predicate Stands(v: View, key: int) {
    exists i :: 0 <= i < |v.cursors| && v.cursors[i].FoundItem? && v.cursors[i].item.key == key
  }

  /** What a caller sees of one operation. An item that a cursor stands on is not
      removed (the source leaves that to its callers), nor is the table overfilled. */
  ghost function Step(v: View, op: Op): View {
    match op
    case ProbeOp(item) =>
      if |v.items| + 1 >= MAX_ITEMS || HasKey(v.items, item.key) then v
      else v.(items := InsertSorted(v.items, item))
    case DeleteOp(key) =>
      if Stands(v, key) || !HasKey(v.items, key) then v else v.(items := RemoveKey(v.items, key))
    case MoveOp(i, d) =>
      if i >= |v.cursors| then v
      else
        var r := if v.cursors[i] == NotFound then Edge(v.items, d)
                 else Neighbour(v.items, v.cursors[i].item.key, d);
        v.(cursors := v.cursors[i := r])
  }

  ghost function Run(v: View, ops: seq<Op>): View {
    if ops == [] then v else Step(Run(v, ops[..|ops| - 1]), ops[|ops| - 1])
  }

  ghost function Cursor(tr: Traverser): Found
    reads tr, tr.node
  {
    if tr.node == null then NotFound else FoundItem(tr.node.data)
  }

  /** The linked structure and its traversers show the view `v`. */
  ghost predicate Shows(table: Table, trs: seq<Traverser>, v: View)
    reads table, table.head, NodeSet(table.tree), trs, set tr | tr in trs :: tr.node
  {
    && table.Valid() && table.count < MAX_ITEMS
    && (forall i :: 0 <= i < |trs| ==> trs[i].table == table && trs[i].Valid())
    && v.items == Items(table.tree)
    && |v.cursors| == |trs| && forall i :: 0 <= i < |trs| ==> v.cursors[i] == Cursor(trs[i])
  }

  predicate Distinct(trs: seq<Traverser>) {
    forall i, j :: 0 <= i < j < |trs| ==> trs[i] != trs[j]
  }

  method InsertOne(table: Table, trs: seq<Traverser>, item: Item, ghost v: View)
    requires Shows(table, trs, v)
    modifies table`count, table`generation, table`tree
    modifies table.head`link0, table.head`link1, table.head`balance
    modifies NodeSet(table.tree)`link0, NodeSet(table.tree)`link1, NodeSet(table.tree)`balance
    ensures Shows(table, trs, Step(v, ProbeOp(item)))
    ensures forall n :: n in NodeSet(table.tree) ==> n in old(NodeSet(table.tree)) || fresh(n)
  {
    hide NodeSet, Items, Avl, Zip, Sorted, InsertSorted, HasKey;
    InsertSortedSize(Items(table.tree), item);
    if table.count + 1 < MAX_ITEMS {
      var n := ProbeUnder(table, item, set tr | tr in trs);
    }
  }

  method RemoveOne(table: Table, trs: seq<Traverser>, key: int, ghost v: View)
    requires Shows(table, trs, v)
    modifies table`count, table`generation, table`tree
    modifies table.head`link0, table.head`link1, table.head`balance
    modifies NodeSet(table.tree)`link0, NodeSet(table.tree)`link1, NodeSet(table.tree)`balance
    ensures Shows(table, trs, Step(v, DeleteOp(key)))
    ensures NodeSet(table.tree) <= old(NodeSet(table.tree))
  {
    hide NodeSet, Items, Avl, Zip, Sorted, RemoveKey, HasKey;
    var standing := exists i :: 0 <= i < |trs| && trs[i].node != null && trs[i].node.data.key == key;
    if standing {
      var i :| 0 <= i < |trs| && trs[i].node != null && trs[i].node.data.key == key;
      assert v.cursors[i] == Cursor(trs[i]);
    } else {
      RemoveKeyShrinks(Items(table.tree), key);
      var r := DeleteUnder(table, key, set tr | tr in trs);
    }
  }

  lemma {:induction false} RemoveKeyShrinks(s: seq<Item>, key: int)
    ensures |RemoveKey(s, key)| <= |s|
  {
    if s != [] {
      RemoveKeyShrinks(s[1..], key);
    }
  }

  method MoveOne(table: Table, trs: seq<Traverser>, i: nat, d: Dir, ghost v: View)
    requires Shows(table, trs, v) && Distinct(trs)
    modifies trs
    ensures Shows(table, trs, Step(v, MoveOp(i, d))) && table.tree == old(table.tree)
  {
    hide NodeSet, Items, Avl, Zip, Sorted, Edge, Neighbour, PathTo;
    NodesAllocated(table.tree);
    if i < |trs| {
      var r := trs[i].Move(d);
    }
  }

  /** Any sequence of insertions, removals and steps, of any number of traversers. */
  method Session(table: Table, trs: seq<Traverser>, ops: seq<Op>, ghost v: View)
    requires Shows(table, trs, v) && Distinct(trs)
    modifies table, table.head, NodeSet(table.tree), trs
    ensures Shows(table, trs, Run(v, ops))
  {
    hide NodeSet, Items, Avl, Zip, Sorted, Edge, Neighbour, PathTo, Step;
    var k := 0;
    ghost var w := v;
    assert ops[..0] == [];
    while k < |ops|
      invariant 0 <= k <= |ops|
      invariant Shows(table, trs, w) && w == Run(v, ops[..k])
      invariant forall n :: n in NodeSet(table.tree) ==> n in old(NodeSet(table.tree)) || fresh(n)
    {
      assert ops[..k + 1][..k] == ops[..k];
      match ops[k] {
        case ProbeOp(item) => InsertOne(table, trs, item, w);
        case DeleteOp(key) => RemoveOne(table, trs, key, w);
        case MoveOp(i, d) => MoveOne(table, trs, i, d, w);
      }
      w := Step(w, ops[k]);
      k := k + 1;
    }
    assert ops[..k] == ops;
  }
}
