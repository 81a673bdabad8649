/** The balanced tree of iwarp/avl.c on linked nodes: search, insertion with one
    rebalancing at most, and deletion with rebalancing up the recorded path. */
module AvlTable {
  import opened AvlTree
  import opened AvlHeap
  import opened AvlHeight
  import opened AvlInsertion
  import opened AvlDeletion

  datatype Found = NotFound | FoundItem(item: Item)

  class Table {
    /** The table seen as a node: its link 0 is avl_root. */
    const head: Node
    var count: nat
    var generation: nat
    ghost var tree: Tree

    ghost predicate Valid()
      reads this, head, NodeSet(tree)
    {
      && Zip(Head(head), head.link0, tree)
      && Avl(tree) && Sorted(Items(tree)) && count == |Items(tree)|
    }

    constructor ()
      ensures Valid() && fresh(head) && tree == Nil && count == 0 && generation == 0
    {
      head := new Node(Item(0, 0));
      count, generation, tree := 0, 0, Nil;
    }

    /** avl_find. */
    method Find(key: int) returns (r: Found)
      requires Valid()
      ensures r.FoundItem? ==> r.item in Items(tree) && r.item.key == key
      ensures r.NotFound? ==> !HasKey(Items(tree), key)
    {
      hide Sorted, Avl, Below, Above, HasKey;
      var p := head.link0;
      ghost var c, t := Head(head), tree;
      while p != null
        invariant Zip(c, p, t) && Plug(c, t) == tree && OnPath(c, key)
        decreases t
      {
        if key == p.data.key {
          PlugItems(c, t);
          return FoundItem(p.data);
        }
        var d := Toward(key, p.data);
        StepDown(c, t, d);
        c, t := Down(c, p, p.data, p.balance, d, Child(Opp(d), t)), Child(d, t);
        p := p.Link(d);
      }
      PlugItems(c, Nil);
      OnPathBounds(c, Nil, key);
      NotBetween(Pre(c), Post(c), key);
      assert Pre(c) + [] + Post(c) == Pre(c) + Post(c);
      return NotFound;
    }

    /** The search loop of avl_probe: remembers in z, y and da[] the last node out
        of perfect balance and the turns taken from there on. */
    method Descend(key: int)
      returns (p: Node?, q: Node, dir: Dir, y: Node?, z: Node, da: seq<Dir>,
               ghost c: Ctx, ghost t: Tree, ghost cy: Ctx, ghost ty: Tree)
      requires Valid() && count < MAX_ITEMS
      ensures Zip(c, p, t) && Plug(c, t) == tree && OnPath(c, key) && HeadOf(c) == head
      ensures Zip(cy, y, ty) && Plug(cy, ty) == tree && OnPath(cy, key) && HeadOf(cy) == head
      ensures q == HoleNode(c) && dir == HoleDir(c) && z == HoleNode(cy)
      ensures Descends(ty, key, da, t)
      ensures cy.Head? || (ty.Bin? && ty.bal != 0)
      ensures p != null ==> p.data.key == key
    {
      hide Sorted, Avl, Below, Above, HasKey, Items, Height, Descends;
      z, q, y, p, dir, da := head, head, head.link0, head.link0, Left, [];
      c, t, cy, ty := Head(head), tree, Head(head), tree;
      DescendHere(ty, key);
      while p != null
        invariant Zip(c, p, t) && Plug(c, t) == tree && OnPath(c, key) && HeadOf(c) == head
        invariant Zip(cy, y, ty) && Plug(cy, ty) == tree && OnPath(cy, key) && HeadOf(cy) == head
        invariant q == HoleNode(c) && dir == HoleDir(c) && z == HoleNode(cy)
        invariant Descends(ty, key, da, t)
        invariant cy.Head? || (ty.Bin? && ty.bal != 0)
        invariant |da| == 0 ==> t == ty
        decreases t
      {
        if key == p.data.key {
          return;
        }
        if p.balance != 0 {
          z, y, da := q, p, [];
          cy, ty := c, t;
          DescendHere(ty, key);
        }
        dir := Toward(key, p.data);
        HeightBound(tree);
        PlugHeight(cy, ty);
        DescendHeight(ty, key, da, t);
        assert |da| < AVL_MAX_HEIGHT;
        DescendFurther(ty, key, da, t);
        da := da + [dir];
        StepDown(c, t, dir);
        c, t := Down(c, p, p.data, p.balance, dir, Child(Opp(dir), t)), Child(dir, t);
        q := p;
        p := p.Link(dir);
      }
    }

    /** avl_probe. The result is the node whose data field the source returns a
        pointer to. */
    method Probe(item: Item) returns (n: Node)
      requires Valid() && count < MAX_ITEMS
      modifies `count, `generation, `tree, head`link0, head`link1
      modifies NodeSet(tree)`link0, NodeSet(tree)`link1, NodeSet(tree)`balance
      ensures Valid()
      ensures n in NodeSet(tree) && n.data.key == item.key
      ensures HasKey(old(Items(tree)), item.key) ==>
                tree == old(tree) && n in old(NodeSet(tree)) && generation == old(generation)
      ensures !HasKey(old(Items(tree)), item.key) ==>
                && fresh(n) && n.data == item && NodeSet(tree) == old(NodeSet(tree)) + {n}
                && Items(tree) == InsertSorted(old(Items(tree)), item)
                && generation == if SamePaths(old(tree), tree) then old(generation) else old(generation) + 1
    {
      hide Items, Height, Avl, AvlAround, Sorted, HasKey, Descends, Grow, Graft, Repr, ReprCtx, NodeSet, CtxSet,
           Plug, OnPath, SamePaths, InsertSorted, Zip, Leaf, HeadOf, HoleNode, HoleDir, Rotation;
      NodesAllocated(tree);
      var p, q, dir, y, z, da, c, t, cy, ty := Descend(item.key);
      if p != null {
        FoundAt(c, p, t);
        return p;
      }
      PlaceNodes(c, p, t, head);
      PlaceNodes(cy, y, ty, head);
      n := new Node(item);
      PlaceGrafts(tree, c, cy, ty, da, item, n);
      LeafIs(n, item);
      Relink(q, dir, n, c, null, Leaf(item, n));
      count := count + 1;
      var rotated;
      ghost var grown;
      rotated, grown := Settle(n, y, z, da, item, c, cy, ty);
      PlaceResult(tree, c, cy, ty, da, item, n, grown);
      tree := Plug(cy, grown);
      if rotated {
        RotationMoves(old(tree), cy, ty, item, n, grown);
        generation := generation + 1;
      }
      GrownNodes(cy, ty, grown, n);
    }

    /** The search loop of avl_delete, with the stacks it fills. */
    method DescendTo(key: int)
      returns (p: Node?, pa: seq<Node>, da: seq<Dir>, ghost c: Ctx, ghost t: Tree)
      requires Valid() && count < MAX_ITEMS
      ensures Zip(c, p, t) && Plug(c, t) == tree && OnPath(c, key) && HeadOf(c) == head
      ensures pa == Nodes(c) && da == Dirs(c)
      ensures p != null ==> p.data.key == key
    {
      hide Sorted, Avl, Items, Height, Repr, ReprCtx, NodeSet, CtxSet, Nodes, Dirs;
      p, pa, da := head.link0, [head], [Left];
      c, t := Head(head), tree;
      HeightBound(tree);
      HeadStack(head);
      while p != null && key != p.data.key
        invariant Zip(c, p, t) && Plug(c, t) == tree && OnPath(c, key) && HeadOf(c) == head
        invariant pa == Nodes(c) && da == Dirs(c)
        decreases t
      {
        var d := Toward(key, p.data);
        NotEmpty(c, p, t);
        StackRoom(c, t, tree);
        assert |pa| < AVL_MAX_HEIGHT;
        RootOfZip(c, p, t);
        PushStack(c, p, t.item, t.bal, d, Child(Opp(d), t));
        StepDown(c, t, d);
        pa, da := pa + [p], da + [d];
        c, t := Down(c, p, t.item, t.bal, d, Child(Opp(d), t)), Child(d, t);
        p := p.Link(d);
      }
    }

    /** avl_delete. `gone` is the node that the source frees. */
    method Delete(key: int) returns (r: Found, ghost gone: Node?)
      requires Valid() && count < MAX_ITEMS
      modifies `count, `generation, `tree, head`link0, head`link1, head`balance
      modifies NodeSet(tree)`link0, NodeSet(tree)`link1, NodeSet(tree)`balance
      ensures Valid()
      ensures !HasKey(old(Items(tree)), key) ==>
                r == NotFound && tree == old(tree) && generation == old(generation)
      ensures HasKey(old(Items(tree)), key) ==>
                && r.FoundItem? && r.item in old(Items(tree)) && r.item.key == key
                && Items(tree) == RemoveKey(old(Items(tree)), key)
                && generation == old(generation) + 1
                && gone != null && gone in old(NodeSet(tree)) && gone.data == r.item
                && NodeSet(tree) == old(NodeSet(tree)) - {gone}
    {
      hide Items, Height, Avl, AvlAround, Sorted, HasKey, Repr, ReprCtx, NodeSet, CtxSet, Plug, OnPath,
           RemoveKey, Zip, HeadOf, HoleNode, HoleDir, Nodes, Dirs, AllNodes, Shrink, CanShrink;
      HeightBound(tree);
      NodesAllocated(tree);
      var p, pa, da, c0, t := DescendTo(key);
      NotEmpty(c0, p, t);
      if p == null {
        MissingKey(c0, key);
        return NotFound, null;
      }
      RootOfZip(c0, p, t);
      WholeNodes(c0, p, t);
      ItemInside(c0, t);
      PlugAvl(c0, t);
      r, gone := FoundItem(p.data), p;
      ghost var c, hole;
      pa, da, c, hole := Splice(p, pa, da, c0, t);
      c, hole := RebalancePath(pa, da, c, hole);
      CtxAllocated(c);
      NodesAllocated(hole);
      tree := Plug(c, hole);
      count := count - 1;
      generation := generation + 1;
      Settled(c, hole, c0, t);
    }
  }
}
