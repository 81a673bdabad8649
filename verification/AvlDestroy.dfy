/** avl_destroy: takes the tree apart without a stack, by rotating to the right until
    the root has no left child and then freeing the root. */
module AvlDestroy {
  import opened AvlTree
  import opened AvlHeap
  import opened AvlTable

  ghost function Rotated(t: Tree): Tree
    requires t.Bin? && t.left.Bin?
  {
    var q := t.left;
    Bin(q.left, q.node, q.item, q.bal, Bin(q.right, t.node, t.item, t.bal, t.right))
  }

  lemma RotatedKeeps(t: Tree)
    requires t.Bin? && t.left.Bin?
    ensures Items(Rotated(t)) == Items(t) && NodeSet(Rotated(t)) == NodeSet(t)
    ensures |Items(Rotated(t).left)| < |Items(t.left)|
  {
  }

  /** The two links that one step of the loop rewrites. */
  method RotateRight(p: Node, ghost t: Tree) returns (q: Node)
    requires t.Bin? && t.left.Bin? && Repr(p, t)
    modifies p`link0, t.left.node`link1
    ensures Repr(q, Rotated(t))
  {
    hide NodeSet, Repr, Items;
    Parts(p, t, Left);
    q := p.link0;
    Parts(q, t.left, Left);
    p.link0 := q.link1;
    q.link1 := p;
    Assemble(Left, t.left.right, p, t.right);
    Assemble(Left, t.left.left, q, Bin(t.left.right, p, p.data, p.balance, t.right));
  }

  lemma FirstItem(t: Tree)
    requires t.Bin? && t.left == Nil
    ensures Items(t) == [t.item] + Items(t.right)
    ensures NodeSet(t) == {t.node} + NodeSet(t.right)
  {
  }

  lemma NilIs()
    ensures Items(Nil) == [] && NodeSet(Nil) == {}
  {
  }

  /** Every item is passed to the callback once, in order, and every node is freed once
      and not used afterwards. */
  method Destroy(table: Table) returns (visited: seq<Item>, ghost freed: set<Node>)
    requires table.Valid()
    modifies NodeSet(table.tree)`link0, NodeSet(table.tree)`link1
    ensures visited == Items(table.tree)
    ensures freed == NodeSet(table.tree)
  {
    hide NodeSet, Repr, Items, Avl, Sorted;
    NodesAllocated(table.tree);
    var p := table.head.link0;
    ghost var t := table.tree;
    visited, freed := [], {};
    while p != null
      invariant Repr(p, t) && visited + Items(t) == Items(table.tree)
      invariant freed !! NodeSet(t) && freed + NodeSet(t) == NodeSet(table.tree)
      decreases |Items(t)|, if t.Bin? then |Items(t.left)| else 0
    {
      RootIs(p, t);
      Parts(p, t, Left);
      RootIs(p.link0, t.left);
      var q;
      if p.link0 == null {
        FirstItem(t);
        q := p.link1;
        visited := visited + [p.data];
        freed := freed + {p};
        t := t.right;
      } else {
        RotatedKeeps(t);
        Parts(p.link0, t.left, Left);
        q := RotateRight(p, t);
        t := Rotated(t);
      }
      p := q;
    }
    RootIs(p, t);
    NilIs();
  }
}
