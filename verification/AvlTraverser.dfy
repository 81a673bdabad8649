/** Traversers: a current node and its ancestors, kept usable while the table changes
    under them by comparing generation numbers. */
module AvlTraverser {
  import opened AvlTree
  import opened AvlHeap
  import opened AvlHeight
  import opened AvlDeletion
  import opened AvlTable

  // ----- the neighbour of a key in an ordered list -----

  ghost function Greater(s: seq<Item>, key: int): seq<Item> {
    if s == [] then [] else if s[0].key > key then s else Greater(s[1..], key)
  }

  ghost function Lesser(s: seq<Item>, key: int): seq<Item> {
    if s == [] || s[0].key >= key then [] else [s[0]] + Lesser(s[1..], key)
  }

  /** The end of `s` that is met first when walking to side `d`. */
  ghost function Edge(s: seq<Item>, d: Dir): Found {
    if s == [] then NotFound
    else if d == Right then FoundItem(s[0]) else FoundItem(s[|s| - 1])
  }

  ghost function Neighbour(s: seq<Item>, key: int, d: Dir): Found {
    Edge(if d == Right then Greater(s, key) else Lesser(s, key), d)
  }

  lemma HeadLeast(s: seq<Item>)
    requires Sorted(s) && s != []
    ensures Sorted(s[1..])
    ensures forall it :: it in s <==> it == s[0] || it in s[1..]
    ensures forall it :: it in s[1..] ==> s[0].key < it.key
  {
    assert forall i :: 0 <= i < |s[1..]| ==> s[1..][i] == s[i + 1];
  }

  lemma SortedCons(x: Item, s: seq<Item>)
    requires Sorted(s) && forall it :: it in s ==> x.key < it.key
    ensures Sorted([x] + s)
    ensures forall it :: it in [x] + s <==> it == x || it in s
  {
  }

  lemma {:induction false} GreaterIs(s: seq<Item>, key: int)
    requires Sorted(s)
    ensures forall it :: it in Greater(s, key) <==> it in s && it.key > key
    ensures Sorted(Greater(s, key))
  {
    hide Sorted;
    if s != [] {
      HeadLeast(s);
      GreaterIs(s[1..], key);
    }
  }

  lemma {:induction false} LesserIs(s: seq<Item>, key: int)
    requires Sorted(s)
    ensures forall it :: it in Lesser(s, key) <==> it in s && it.key < key
    ensures Sorted(Lesser(s, key))
  {
    hide Sorted;
    if s != [] {
      HeadLeast(s);
      LesserIs(s[1..], key);
      if s[0].key < key {
        SortedCons(s[0], Lesser(s[1..], key));
      }
    } else {
      assert Lesser(s, key) == s;
    }
  }

  /** Nothing lies between a key and its neighbour. */
  lemma NeighbourIsNext(s: seq<Item>, key: int, d: Dir)
    requires Sorted(s)
    ensures var n := Neighbour(s, key, d);
            && (n.FoundItem? ==> n.item in s && (if d == Right then n.item.key > key else n.item.key < key))
            && forall it :: it in s && (if d == Right then it.key > key else it.key < key) ==>
                 n.FoundItem? && (if d == Right then n.item.key <= it.key else it.key <= n.item.key)
  {
    hide Greater, Lesser;
    GreaterIs(s, key);
    LesserIs(s, key);
  }

  lemma {:induction false} GreaterAt(a: seq<Item>, it: Item, b: seq<Item>)
    requires Below(a, it.key) && Above(b, it.key)
    ensures Greater(a + [it] + b, it.key) == b
  {
    var s := a + [it] + b;
    if a == [] {
      assert s[0] == it && s[1..] == b;
      assert b != [] ==> b[0].key > it.key;
    } else {
      assert s[0] == a[0] && s[1..] == a[1..] + [it] + b;
      GreaterAt(a[1..], it, b);
    }
  }

  lemma {:induction false} LesserAt(a: seq<Item>, it: Item, b: seq<Item>)
    requires Below(a, it.key)
    ensures Lesser(a + [it] + b, it.key) == a
  {
    var s := a + [it] + b;
    if a == [] {
      assert s[0] == it;
    } else {
      assert s[0] == a[0] && s[1..] == a[1..] + [it] + b;
      LesserAt(a[1..], it, b);
      assert a == [a[0]] + a[1..];
    }
  }

  /** The items beyond the hole on side `d`. */
  ghost function Side(c: Ctx, d: Dir): seq<Item> { if d == Right then Post(c) else Pre(c) }

  /** At a node, the neighbour is the near edge of its subtree on that side, or else
      the near edge of what lies beyond the whole subtree. */
  lemma NeighbourHere(c: Ctx, t: Tree, d: Dir)
    requires t.Bin? && Sorted(Items(Plug(c, t)))
    ensures Neighbour(Items(Plug(c, t)), t.item.key, d)
         == if Child(d, t).Bin? then Edge(Items(Child(d, t)), d) else Edge(Side(c, d), d)
  {
    hide Sorted, Below, Above, Pre, Post, Items, Greater, Lesser, Plug;
    PlugItems(c, t);
    MkItems(Left, t.left, t.node, t.item, t.bal, t.right);
    var a, b := Pre(c) + Items(t.left), Items(t.right) + Post(c);
    Regroup(Pre(c), Items(t.left), t.item, Items(t.right), Post(c));
    SortedSplit(a, t.item, b);
    GreaterAt(a, t.item, b);
    LesserAt(a, t.item, b);
    SomeItem(t.left);
    SomeItem(t.right);
  }

  lemma SomeItem(t: Tree)
    ensures t.Bin? <==> Items(t) != []
  {
  }

  /** Walking down towards the near edge of a subtree. */
  lemma EdgeBelow(t: Tree, d: Dir)
    requires t.Bin?
    ensures Edge(Items(t), d)
         == if Child(Opp(d), t).Bin? then Edge(Items(Child(Opp(d), t)), d) else FoundItem(t.item)
  {
    SomeItem(Child(Opp(d), t));
  }

  /** Walking up past a node whose subtree on side `d` is exhausted. */
  lemma EdgeAbove(c: Ctx, d: Dir)
    ensures Edge(Side(c, d), d)
         == if c.Head? then NotFound else if c.dir == d then Edge(Side(c.up, d), d) else FoundItem(c.item)
  {
  }

  // ----- finding a node again -----

  /** The key says in which subtree a node below another one lies. */
  lemma NodeBelow(c: Ctx, p: Node?, t: Tree, n: Node)
    requires Zip(c, p, t) && n in NodeSet(t) && Sorted(Items(Plug(c, t)))
    ensures t.Bin? && p == t.node
    ensures n != p ==> n.data.key != t.item.key && n in NodeSet(Child(Toward(n.data.key, t.item), t))
  {
    if n != p {
      Narrow(c, t, 0);
      if n in NodeSet(t.left) {
        NodeItem(t.left, p.link0, n);
        assert n.data.key < t.item.key;
      } else {
        NodeItem(t.right, p.link1, n);
        assert n.data.key > t.item.key;
      }
    }
  }

  lemma {:induction false} PathPlug(c: Ctx, t: Tree, key: int)
    requires OnPath(c, key)
    ensures |Nodes(c)| > 0 && PathTo(Plug(c, t), key) == Nodes(c)[1..] + PathTo(t, key)
    ensures Has(Plug(c, t), key) <==> Has(t, key)
  {
    match c
    case Head(_) =>
    case Down(up, n, it, b, d, o) =>
      var s := Mk(d, t, n, it, b, o);
      PathPlug(up, s, key);
      assert PathTo(s, key) == [n] + PathTo(t, key);
      assert Nodes(c)[1..] == Nodes(up)[1..] + [n];
  }

  /** The stack and node of a traverser describe this place on the tree. */
  ghost predicate At(tree: Tree, head: Node, c: Ctx, t: Tree, p: Node?, stack: seq<Node>)
    reads CtxSet(c), NodeSet(t)
  {
    && Plug(c, t) == tree && HeadOf(c) == head && Zip(c, p, t) && t.Bin?
    && OnPath(c, t.item.key) && stack == Nodes(c)[1..]
  }

  lemma AtPath(tree: Tree, head: Node, c: Ctx, t: Tree, p: Node?, stack: seq<Node>)
    requires At(tree, head, c, t, p, stack)
    ensures p == t.node && p.data == t.item && p in NodeSet(tree)
    ensures stack == PathTo(tree, p.data.key) && Has(tree, p.data.key)
  {
    PathPlug(c, t, t.item.key);
    WholeNodes(c, p, t);
    HeadOutside(c, t);
  }

  lemma HeadOutside(c: Ctx, t: Tree)
    requires t.Bin?
    ensures t.node in NodeSet(Plug(c, t)) + {HeadOf(c)}
  {
    PlugNodes(c, t);
  }

  lemma PlugHead(h: Node, t: Tree)
    ensures Plug(Head(h), t) == t
  {
  }

  /** A key stored below the hole has its search path through the hole. */
  lemma {:induction false} InsideOnPath(c: Ctx, t: Tree, item: Item)
    requires Sorted(Items(Plug(c, t))) && item in Items(t)
    ensures OnPath(c, item.key)
  {
    hide Sorted, Items;
    match c
    case Head(_) =>
    case Down(up, n, it, b, d, o) =>
      var s := Mk(d, t, n, it, b, o);
      Narrow(up, s, 0);
      MkItems(d, t, n, it, b, o);
      InsideOnPath(up, s, item);
  }

  /** Every node of the table has its place. */
  lemma {:induction false} PlaceOf(c0: Ctx, p: Node?, t0: Tree, n: Node) returns (c: Ctx, t: Tree)
    requires Zip(c0, p, t0) && n in NodeSet(t0) && Sorted(Items(Plug(c0, t0)))
    requires OnPath(c0, n.data.key)
    ensures At(Plug(c0, t0), HeadOf(c0), c, t, n, PathTo(Plug(c0, t0), n.data.key))
    decreases t0
  {
    hide Sorted, Items, Repr, ReprCtx;
    NodeBelow(c0, p, t0, n);
    RootOfZip(c0, p, t0);
    if n == p {
      c, t := c0, t0;
      PathPlug(c, t, n.data.key);
    } else {
      var d := Toward(n.data.key, t0.item);
      StepDown(c0, t0, d);
      c, t := PlaceOf(Down(c0, t0.node, t0.item, t0.bal, d, Child(Opp(d), t0)), t0.node.Link(d), Child(d, t0), n);
    }
  }

  /** One step down keeps a place a place. */
  lemma AtBelow(tree: Tree, head: Node, c: Ctx, t: Tree, p: Node, stack: seq<Node>, d: Dir)
    requires At(tree, head, c, t, p, stack) && Child(d, t).Bin? && Sorted(Items(tree))
    ensures var down := Down(c, p, t.item, t.bal, d, Child(Opp(d), t));
            At(tree, head, down, Child(d, t), p.Link(d), stack + [p])
  {
    hide Sorted, Repr, ReprCtx;
    RootOfZip(c, p, t);
    StepDown(c, t, d);
    var down := Down(c, p, t.item, t.bal, d, Child(Opp(d), t));
    MkItems(Left, Child(d, t).left, Child(d, t).node, Child(d, t).item, Child(d, t).bal, Child(d, t).right);
    InsideOnPath(down, Child(d, t), Child(d, t).item);
    assert |Nodes(c)| > 0;
  }

  /** One step up does too, and the link back down tells on which side it was. */
  lemma AtAbove(tree: Tree, head: Node, c: Ctx, t: Tree, p: Node, stack: seq<Node>)
    requires At(tree, head, c, t, p, stack) && Sorted(Items(tree))
    ensures |stack| == 0 <==> c.Head?
    ensures c.Down? ==>
              && At(tree, head, c.up, Mk(c.dir, t, c.node, c.item, c.bal, c.other), c.node, stack[..|stack| - 1])
              && stack[|stack| - 1] == c.node
              && forall d :: p == c.node.Link(d) <==> d == c.dir
  {
    hide Sorted, Items;
    assert |Nodes(c)| > 0;
    if c.Down? {
      StepUp(c, p, t);
      var s := Mk(c.dir, t, c.node, c.item, c.bal, c.other);
      MkItems(c.dir, t, c.node, c.item, c.bal, c.other);
      InsideOnPath(c.up, s, c.item);
      assert |Nodes(c.up)| > 0;
      RootIs(c.node.Link(Opp(c.dir)), c.other);
      if c.other.Bin? {
        assert p !in NodeSet(c.other);
      }
    }
  }

  class Traverser {
    const table: Table
    var node: Node?
    var stack: seq<Node>
    var generation: int

    /** The current node is in the table, and the stack is right unless the
        generation numbers say it may be stale. */
    ghost predicate Valid()
      reads this, table, table.head, NodeSet(table.tree)
    {
      && table.Valid() && generation <= table.generation
      && (node != null ==>
            && node in NodeSet(table.tree)
            && (generation == table.generation ==> stack == PathTo(table.tree, node.data.key)))
    }

    /** avl_t_init. */
    constructor (table: Table)
      requires table.Valid()
      ensures Valid() && this.table == table && node == null
    {
      this.table := table;
      node, stack, generation := null, [], table.generation;
    }

    /** trav_refresh, for a current node: walks down from the root by its key. */
    method Locate() returns (pa: seq<Node>)
      requires table.Valid() && table.count < MAX_ITEMS && node != null && node in NodeSet(table.tree)
      ensures pa == PathTo(table.tree, node.data.key)
    {
      PlugHead(table.head, table.tree);
      hide Sorted, Avl, Items, Height, Repr, ReprCtx, NodeSet, CtxSet, Nodes, Dirs, Plug;
      var i := table.head.link0;
      ghost var c, t := Head(table.head), table.tree;
      pa := [];
      HeadStack(table.head);
      HeightBound(t);
      while i != node
        invariant Zip(c, i, t) && Plug(c, t) == table.tree && HeadOf(c) == table.head
        invariant node in NodeSet(t) && OnPath(c, node.data.key)
        invariant |Nodes(c)| > 0 && pa == Nodes(c)[1..]
        decreases t
      {
        NodeBelow(c, i, t, node);
        RootOfZip(c, i, t);
        StackRoom(c, t, table.tree);
        assert |pa| < AVL_MAX_HEIGHT;
        var d := Toward(node.data.key, i.data);
        PushStack(c, i, t.item, t.bal, d, Child(Opp(d), t));
        StepDown(c, t, d);
        pa := pa + [i];
        c, t := Down(c, i, t.item, t.bal, d, Child(Opp(d), t)), Child(d, t);
        i := i.Link(d);
      }
      NodeBelow(c, i, t, node);
      RootOfZip(c, i, t);
      AtPath(table.tree, table.head, c, t, i, pa);
    }

    /** Pushes x and its descendants on side Opp(d): the loops that end avl_t_first,
        avl_t_last and the downward half of avl_t_next and avl_t_prev. */
    static method ToEdge(table: Table, d: Dir, x0: Node, stack0: seq<Node>, ghost c0: Ctx, ghost t0: Tree)
        returns (x: Node, stack: seq<Node>)
      requires table.Valid() && table.count < MAX_ITEMS
      requires At(table.tree, table.head, c0, t0, x0, stack0)
      ensures Edge(Items(t0), d) == FoundItem(x.data)
      ensures x in NodeSet(table.tree) && stack == PathTo(table.tree, x.data.key)
    {
      hide Sorted, Avl, Items, Height, Repr, ReprCtx, NodeSet, CtxSet, Edge, PathTo, At;
      x, stack := x0, stack0;
      ghost var c, t := c0, t0;
      HeightBound(table.tree);
      AtLooks(table.tree, table.head, c, t, x, stack);
      while x.Link(Opp(d)) != null
        invariant At(table.tree, table.head, c, t, x, stack) && Edge(Items(t), d) == Edge(Items(t0), d)
        invariant t.Bin? && (x.Link(Opp(d)) != null <==> Child(Opp(d), t).Bin?)
        decreases t
      {
        AtLooks(table.tree, table.head, c, t, x, stack);
        StackRoom(c, t, table.tree);
        assert |stack| < AVL_MAX_HEIGHT;
        EdgeBelow(t, d);
        AtBelow(table.tree, table.head, c, t, x, stack, Opp(d));
        stack := stack + [x];
        c, t := Down(c, x, t.item, t.bal, Opp(d), Child(Opp(Opp(d)), t)), Child(Opp(d), t);
        x := x.Link(Opp(d));
        AtLooks(table.tree, table.head, c, t, x, stack);
      }
      EdgeBelow(t, d);
      AtPath(table.tree, table.head, c, t, x, stack);
    }

    static lemma AtLooks(tree: Tree, head: Node, c: Ctx, t: Tree, p: Node?, stack: seq<Node>)
      requires At(tree, head, c, t, p, stack)
      ensures t.Bin? && p == t.node && p.data == t.item && Plug(c, t) == tree && Zip(c, p, t)
      ensures |stack| == |Nodes(c)| - 1
      ensures forall d :: p.Link(d) != null <==> Child(d, t).Bin?
    {
      RootOfZip(c, p, t);
      StackTop(c);
    }

    static lemma WholeTree(tree: Tree, head: Node)
      requires Zip(Head(head), head.link0, tree)
      ensures tree.Bin? ==> At(tree, head, Head(head), tree, head.link0, [])
      ensures head.link0 == null ==> tree == Nil && Items(tree) == []
      ensures head.link0 != null ==> tree.Bin?
    {
      RootIs(head.link0, tree);
    }

    /** The upward half: pops ancestors until one is left on the other side. */
    static method Climb(table: Table, d: Dir, x0: Node, stack0: seq<Node>, ghost c0: Ctx, ghost t0: Tree)
        returns (x: Node?, stack: seq<Node>)
      requires table.Valid() && At(table.tree, table.head, c0, t0, x0, stack0)
      ensures x == null ==> Edge(Side(c0, d), d) == NotFound
      ensures x != null ==>
                && Edge(Side(c0, d), d) == FoundItem(x.data)
                && x in NodeSet(table.tree) && stack == PathTo(table.tree, x.data.key)
    {
      hide Sorted, Avl, Items, Height, Repr, ReprCtx, NodeSet, CtxSet, Edge, Side, PathTo, At;
      ghost var c, t := c0, t0;
      x, stack := x0, stack0;
      while true
        invariant x != null && At(table.tree, table.head, c, t, x, stack)
        invariant Edge(Side(c, d), d) == Edge(Side(c0, d), d)
        decreases c
      {
        AtAbove(table.tree, table.head, c, t, x, stack);
        EdgeAbove(c, d);
        if |stack| == 0 {
          return null, [];
        }
        var y := x;
        x, stack := stack[|stack| - 1], stack[..|stack| - 1];
        AtLooks(table.tree, table.head, c.up, Mk(c.dir, t, c.node, c.item, c.bal, c.other), x, stack);
        c, t := c.up, Mk(c.dir, t, c.node, c.item, c.bal, c.other);
        if y != x.Link(d) {
          break;
        }
      }
      AtPath(table.tree, table.head, c, t, x, stack);
    }

    /** Where avl_t_next (Right) and avl_t_prev (Left) go; they are mirror images. */
    method Seek(d: Dir) returns (x: Node?, pa: seq<Node>)
      requires Valid() && table.count < MAX_ITEMS
      ensures var r := if node == null then Edge(Items(table.tree), d)
                       else Neighbour(Items(table.tree), node.data.key, d);
              r == if x == null then NotFound else FoundItem(x.data)
      ensures x != null ==> x in NodeSet(table.tree) && pa == PathTo(table.tree, x.data.key)
    {
      hide Sorted, Avl, Items, Height, Repr, ReprCtx, NodeSet, CtxSet, Edge, Neighbour, PathTo, At, Zip;
      NodesAllocated(table.tree);
      pa := stack;
      if generation != table.generation && node != null {
        pa := Locate();
        assert table.Valid();
      }
      x := node;
      if x == null {
        WholeTree(table.tree, table.head);
        EdgeNone(d);
        if table.head.link0 == null {
          return null, [];
        }
        x, pa := ToEdge(table, d, table.head.link0, [], Head(table.head), table.tree);
        return;
      }
      PlugHead(table.head, table.tree);
      ghost var c, t := PlaceOf(Head(table.head), table.head.link0, table.tree, x);
      AtLooks(table.tree, table.head, c, t, x, pa);
      NeighbourHere(c, t, d);
      if x.Link(d) != null {
        HeightBound(table.tree);
        StackRoom(c, t, table.tree);
        assert |pa| < AVL_MAX_HEIGHT;
        AtBelow(table.tree, table.head, c, t, x, pa, d);
        x, pa := ToEdge(table, d, x.Link(d), pa + [x],
                        Down(c, x, t.item, t.bal, d, Child(Opp(d), t)), Child(d, t));
      } else {
        x, pa := Climb(table, d, x, pa, c, t);
      }
    }

    static lemma EdgeNone(d: Dir)
      ensures Edge([], d) == NotFound
    {
    }

    method Move(d: Dir) returns (r: Found)
      requires Valid() && table.count < MAX_ITEMS
      modifies this
      ensures Valid() && generation == table.generation
      ensures r == if old(node) == null then Edge(Items(table.tree), d)
                   else Neighbour(Items(table.tree), old(node.data.key), d)
      ensures r.FoundItem? ==> node != null && node.data == r.item
      ensures r.NotFound? ==> node == null
    {
      hide Sorted, Avl, Items, Height, Repr, ReprCtx, NodeSet, CtxSet, Edge, Neighbour, PathTo, Zip;
      NodesAllocated(table.tree);
      var x, pa := Seek(d);
      node, stack, generation := x, pa, table.generation;
      r := if x == null then NotFound else FoundItem(x.data);
    }

    method Next() returns (r: Found)
      requires Valid() && table.count < MAX_ITEMS
      modifies this
      ensures Valid() && generation == table.generation
      ensures r == if old(node) == null then Edge(Items(table.tree), Right)
                   else Neighbour(Items(table.tree), old(node.data.key), Right)
      ensures r.FoundItem? ==> node != null && node.data == r.item
      ensures r.NotFound? ==> node == null
    {
      r := Move(Right);
    }

    method Prev() returns (r: Found)
      requires Valid() && table.count < MAX_ITEMS
      modifies this
      ensures Valid() && generation == table.generation
      ensures r == if old(node) == null then Edge(Items(table.tree), Left)
                   else Neighbour(Items(table.tree), old(node.data.key), Left)
      ensures r.FoundItem? ==> node != null && node.data == r.item
      ensures r.NotFound? ==> node == null
    {
      r := Move(Left);
    }

    /** avl_t_find: the stack is recorded on the way down, wherever the traverser stood. */
    method Find(key: int) returns (r: Found)
      requires table.Valid() && table.count < MAX_ITEMS
      modifies this
      ensures Valid() && generation == table.generation
      ensures r.FoundItem? ==> node != null && node.data == r.item && r.item in Items(table.tree) && r.item.key == key
      ensures r.NotFound? ==> node == null && !HasKey(Items(table.tree), key)
    {
      hide Sorted, Avl, Items, Height, Repr, ReprCtx, NodeSet, CtxSet, PathTo, HasKey, Zip, OnPath, Plug, Below, Above;
      NodesAllocated(table.tree);
      HeightBound(table.tree);
      var p, pa := table.head.link0, [];
      ghost var c, t := Head(table.head), table.tree;
      WholeTreeStack(table.tree, table.head);
      while p != null && p.data.key != key
        invariant Zip(c, p, t) && Plug(c, t) == table.tree && OnPath(c, key) && HeadOf(c) == table.head
        invariant pa == Nodes(c)[1..] && |Nodes(c)| > 0
        decreases t
      {
        ZipItem(c, p, t);
        StackRoom(c, t, table.tree);
        assert |pa| < AVL_MAX_HEIGHT;
        var d := Toward(key, p.data);
        FindBelow(c, p, t, key);
        pa := pa + [p];
        c, t := Down(c, p, p.data, p.balance, d, Child(Opp(d), t)), Child(d, t);
        p := p.Link(d);
      }
      if p == null {
        ZipEnd(c, t);
        MissingKey(c, key);
        node, stack, generation := null, [], table.generation;
        return NotFound;
      }
      FoundHere(table.tree, table.head, c, t, p, pa);
      node, stack, generation := p, pa, table.generation;
      return FoundItem(p.data);
    }

    static lemma WholeTreeStack(tree: Tree, head: Node)
      ensures Nodes(Head(head))[1..] == [] && |Nodes(Head(head))| > 0
      ensures Plug(Head(head), tree) == tree && HeadOf(Head(head)) == head
      ensures forall key :: OnPath(Head(head), key)
    {
    }

    static lemma FindBelow(c: Ctx, p: Node, t: Tree, key: int)
      requires Zip(c, p, t) && OnPath(c, key) && p.data.key != key && |Nodes(c)| > 0
      ensures t.Bin? && p == t.node
      ensures var d := Toward(key, p.data);
              var down := Down(c, p, p.data, p.balance, d, Child(Opp(d), t));
              && Zip(down, p.Link(d), Child(d, t)) && Plug(down, Child(d, t)) == Plug(c, t)
              && OnPath(down, key) && HeadOf(down) == HeadOf(c)
              && Nodes(down)[1..] == Nodes(c)[1..] + [p] && |Nodes(down)| > 0 && Child(d, t) < t
    {
      hide Repr, ReprCtx, NodeSet, CtxSet;
      ZipItem(c, p, t);
      StepDown(c, t, Toward(key, p.data));
    }

    static lemma ZipItem(c: Ctx, p: Node, t: Tree)
      requires Zip(c, p, t)
      ensures t.Bin? && p == t.node && p.data == t.item && p.balance == t.bal
    {
    }

    static lemma ZipEnd(c: Ctx, t: Tree)
      requires Zip(c, null, t)
      ensures t == Nil
    {
    }

    static lemma FoundHere(tree: Tree, head: Node, c: Ctx, t: Tree, p: Node, pa: seq<Node>)
      requires Zip(c, p, t) && Plug(c, t) == tree && HeadOf(c) == head && OnPath(c, p.data.key) && pa == Nodes(c)[1..]
      requires |Nodes(c)| > 0
      ensures p in NodeSet(tree) && p.data in Items(tree) && pa == PathTo(tree, p.data.key)
    {
      hide NodeSet, CtxSet, Repr, ReprCtx, PathTo, OnPath;
      ZipItem(c, p, t);
      AtPath(tree, head, c, t, p, pa);
      PlugItems(c, t);
    }

    /** avl_t_insert: the stack is left to be refreshed, wherever the traverser stood. */
    method Insert(item: Item) returns (r: Item)
      requires table.Valid() && table.count + 1 < MAX_ITEMS
      modifies this, table`count, table`generation, table`tree
      modifies table.head`link0, table.head`link1, table.head`balance
      modifies NodeSet(table.tree)`link0, NodeSet(table.tree)`link1, NodeSet(table.tree)`balance
      ensures Valid() && node != null && node.data == r && r.key == item.key
      ensures Items(table.tree) == if HasKey(old(Items(table.tree)), item.key) then old(Items(table.tree))
                                   else InsertSorted(old(Items(table.tree)), item)
    {
      hide Sorted, Avl, Items, Height, Repr, ReprCtx, NodeSet, CtxSet, PathTo, Zip, HasKey, InsertSorted;
      var n := ProbeUnder(table, item, {});
      NodesAllocated(table.tree);
      node, generation := n, table.generation - 1;
      r := n.data;
    }

    /** avl_t_copy: a stale stack is not copied. */
    method CopyFrom(src: Traverser)
      requires src.Valid() && src.table == table && src != this
      modifies this
      ensures Valid() && src.Valid() && node == src.node && generation == src.generation
    {
      hide Sorted, Avl, Items, Height, Repr, ReprCtx, NodeSet, CtxSet, PathTo, Zip;
      NodesAllocated(table.tree);
      node, generation := src.node, src.generation;
      if generation == table.generation {
        stack := src.stack;
      }
    }
  }

  // ----- traversers while the table changes -----

  /** avl_probe leaves every traverser of the table usable. */
  method ProbeUnder(table: Table, item: Item, trs: set<Traverser>) returns (n: Node)
    requires table.Valid() && table.count < MAX_ITEMS
    requires forall tr :: tr in trs ==> tr.table == table && tr.Valid()
    modifies table`count, table`generation, table`tree
    modifies table.head`link0, table.head`link1, table.head`balance
    modifies NodeSet(table.tree)`link0, NodeSet(table.tree)`link1, NodeSet(table.tree)`balance
    ensures table.Valid() && n in NodeSet(table.tree) && n.data.key == item.key
    ensures Items(table.tree) == if HasKey(old(Items(table.tree)), item.key) then old(Items(table.tree))
                                 else InsertSorted(old(Items(table.tree)), item)
    ensures fresh(NodeSet(table.tree) - old(NodeSet(table.tree)))
    ensures forall tr :: tr in trs ==> tr.table == table && tr.Valid()
  {
    hide Sorted, Avl, Items, Height, Repr, ReprCtx, NodeSet, CtxSet, PathTo, Zip, HasKey, InsertSorted, Has;
    NodesAllocated(table.tree);
    ghost var was := table.tree;
    forall tr | tr in trs && tr.node != null
      ensures Has(was, tr.node.data.key)
    {
      StoredKey(table, tr.node);
    }
    n := table.Probe(item);
  }

  /** The key of a stored node is found by searching. */
  lemma StoredKey(table: Table, n: Node)
    requires table.Valid() && n in NodeSet(table.tree)
    ensures Has(table.tree, n.data.key)
  {
    PlugHead(table.head, table.tree);
    var c, t := PlaceOf(Head(table.head), table.head.link0, table.tree, n);
    AtPath(table.tree, table.head, c, t, n, PathTo(table.tree, n.data.key));
  }

  /** So does avl_delete, as long as no traverser stands on the removed item. */
  method DeleteUnder(table: Table, key: int, trs: set<Traverser>) returns (r: Found)
    requires table.Valid() && table.count < MAX_ITEMS
    requires forall tr :: tr in trs ==> tr.table == table && tr.Valid()
    requires forall tr :: tr in trs && tr.node != null ==> tr.node.data.key != key
    modifies table`count, table`generation, table`tree
    modifies table.head`link0, table.head`link1, table.head`balance
    modifies NodeSet(table.tree)`link0, NodeSet(table.tree)`link1, NodeSet(table.tree)`balance
    ensures table.Valid()
    ensures r.FoundItem? <==> HasKey(old(Items(table.tree)), key)
    ensures r.FoundItem? ==> r.item in old(Items(table.tree)) && r.item.key == key
    ensures Items(table.tree) == if r.FoundItem? then RemoveKey(old(Items(table.tree)), key)
                                 else old(Items(table.tree))
    ensures NodeSet(table.tree) <= old(NodeSet(table.tree))
    ensures forall tr :: tr in trs ==> tr.table == table && tr.Valid()
  {
    hide Sorted, Avl, Items, Height, Repr, ReprCtx, NodeSet, CtxSet, PathTo, Zip, HasKey, RemoveKey;
    NodesAllocated(table.tree);
    ghost var gone;
    r, gone := table.Delete(key);
  }
}
