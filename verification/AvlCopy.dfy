/** avl_copy: walks the original with a stack of node pairs and builds a tree of the same
    shape from new nodes. */
module AvlCopy {
  import opened AvlTree
  import opened AvlHeap
  import opened AvlHeight
  import opened AvlDeletion
  import opened AvlTable

  /** Same shape, items and balances; the nodes may differ. */
  ghost predicate Same(t: Tree, u: Tree) {
    match t
    case Nil => u == Nil
    case Bin(l, n, it, b, r) => u.Bin? && u.item == it && u.bal == b && Same(l, u.left) && Same(r, u.right)
  }

  lemma {:induction false} SameItems(t: Tree, u: Tree)
    requires Same(t, u)
    ensures Items(u) == Items(t) && Height(u) == Height(t)
  {
    if t.Bin? {
      SameItems(t.left, u.left);
      SameItems(t.right, u.right);
    }
  }

  lemma {:induction false} SameAvl(t: Tree, u: Tree)
    requires Same(t, u)
    ensures Avl(u) <==> Avl(t)
  {
    if t.Bin? {
      SameAvl(t.left, u.left);
      SameAvl(t.right, u.right);
      SameItems(t.left, u.left);
      SameItems(t.right, u.right);
    }
  }

  /** The copy so far: `k` follows the path `c` of the original and has y in the hole. Where
      the path goes left the node's data, balance and right link are still to be set; where
      it goes right the node and its left subtree are done. */
  ghost predicate Half(c: Ctx, k: Ctx, y: Node?)
    reads CtxSet(k)
  {
    match c
    case Head(_) => k.Head? && k.head.link0 == y
    case Down(up, n, it, b, d, o) =>
      && k.Down? && k.dir == d && k.node !in CtxSet(k.up) && k.node.Link(d) == y
      && Half(up, k.up, k.node)
      && (if d == Left then k.other == Nil
          else
            && k.node.data == it && k.node.balance == b
            && Repr(k.node.link0, k.other) && Same(o, k.other)
            && k.node !in NodeSet(k.other) && NodeSet(k.other) !! CtxSet(k.up))
  }

  /** The stack: the pairs of nodes at which the path goes left, the two heads first. */
  ghost function Pairs(c: Ctx, k: Ctx): seq<(Node, Node)>
    requires MirrorShape(c, k)
  {
    match c
    case Head(h) => [(h, k.head)]
    case Down(up, n, it, b, d, o) => Pairs(up, k.up) + if d == Left then [(n, k.node)] else []
  }

  ghost predicate MirrorShape(c: Ctx, k: Ctx) {
    match c
    case Head(_) => k.Head?
    case Down(up, _, _, _, d, _) => k.Down? && k.dir == d && MirrorShape(up, k.up)
  }

  lemma {:induction false} HalfShape(c: Ctx, k: Ctx, y: Node?)
    requires Half(c, k, y)
    ensures MirrorShape(c, k)
  {
    if c.Down? {
      HalfShape(c.up, k.up, k.node);
    }
  }

  lemma {:induction false} FewPairs(c: Ctx, k: Ctx)
    requires MirrorShape(c, k)
    ensures 0 < |Pairs(c, k)| <= Depth(c) + 1
  {
    if c.Down? {
      FewPairs(c.up, k.up);
    }
  }

  ghost function Size(t: Tree): nat {
    match t
    case Nil => 0
    case Bin(l, _, _, _, r) => 1 + Size(l) + Size(r)
  }

  /** Nodes of the original that are still to be finished outside the hole. */
  ghost function Todo(c: Ctx): nat {
    match c
    case Head(_) => 0
    case Down(up, _, _, _, d, o) => Todo(up) + if d == Left then 1 + Size(o) else 0
  }

  /** x is being copied to y, which is linked in but otherwise blank. */
  ghost predicate Facing(c: Ctx, t: Tree, x: Node, k: Ctx, y: Node, stack: seq<(Node, Node)>)
    reads CtxSet(c), NodeSet(t), CtxSet(k)
  {
    && t.Bin? && Zip(c, x, t) && Half(c, k, y) && y !in CtxSet(k)
    && MirrorShape(c, k) && stack == Pairs(c, k)
    && (CtxSet(c) + NodeSet(t)) !! (CtxSet(k) + {y})
  }

  /** The same, with y's left subtree `u` finished. */
  ghost predicate LeftDone(c: Ctx, t: Tree, x: Node, k: Ctx, y: Node, u: Tree, stack: seq<(Node, Node)>)
    reads CtxSet(c), NodeSet(t), CtxSet(k), y, NodeSet(u)
  {
    && Facing(c, t, x, k, y, stack)
    && Repr(y.link0, u) && Same(t.left, u) && y !in NodeSet(u) && NodeSet(u) !! CtxSet(k)
    && NodeSet(u) !! (CtxSet(c) + NodeSet(t))
  }

  lemma FacingParts(c: Ctx, t: Tree, x: Node, k: Ctx, y: Node, stack: seq<(Node, Node)>)
    requires Facing(c, t, x, k, y, stack)
    ensures t.Bin? && x == t.node && x.data == t.item && x.balance == t.bal
    ensures (x.link0 == null <==> t.left == Nil) && (x.link1 == null <==> t.right == Nil)
    ensures x != y && y !in CtxSet(c) && y !in NodeSet(t) && y !in CtxSet(k)
    ensures allocated(CtxSet(c)) && allocated(NodeSet(t)) && allocated(CtxSet(k))
  {
    hide Half;
    RootOfZip(c, x, t);
    NodesAllocated(t);
    CtxAllocated(c);
    CtxAllocated(k);
  }

  /** The step to a left child. */
  method StepLeft(x: Node, y: Node, stack: seq<(Node, Node)>, ghost c: Ctx, ghost t: Tree, ghost k: Ctx)
      returns (x2: Node, y2: Node, stack2: seq<(Node, Node)>, ghost c2: Ctx, ghost k2: Ctx)
    requires Facing(c, t, x, k, y, stack) && t.left.Bin?
    modifies y`link0
    ensures fresh(y2) && c2 == Down(c, x, t.item, t.bal, Left, t.right) && Plug(c2, t.left) == Plug(c, t)
    ensures CtxSet(k2) == CtxSet(k) + {y} && HeadOf(k2) == HeadOf(k)
    ensures Facing(c2, t.left, x2, k2, y2, stack2)
  {
    hide Repr, ReprCtx, NodeSet, Same;
    FacingParts(c, t, x, k, y, stack);
    StepDown(c, t, Left);
    y2 := new Node(Item(0, 0));
    y.link0 := y2;
    stack2 := stack + [(x, y)];
    c2 := Down(c, x, t.item, t.bal, Left, t.right);
    k2 := Down(k, y, y.data, y.balance, Left, Nil);
    NilNodes();
    x2 := x.link0;
  }

  /** "while (x->avl_link[0] != NULL)". */
  method GoLeft(x0: Node, y0: Node, stack0: seq<(Node, Node)>, ghost c0: Ctx, ghost t0: Tree, ghost k0: Ctx)
      returns (x: Node, y: Node, stack: seq<(Node, Node)>, ghost c: Ctx, ghost t: Tree, ghost k: Ctx)
    requires Facing(c0, t0, x0, k0, y0, stack0) && Height(Plug(c0, t0)) < AVL_MAX_HEIGHT
    modifies y0
    ensures LeftDone(c, t, x, k, y, Nil, stack)
    ensures Plug(c, t) == Plug(c0, t0) && Todo(c) + Size(t) == Todo(c0) + Size(t0) && HeadOf(c) == HeadOf(c0)
    ensures HeadOf(k) == HeadOf(k0)
    ensures forall n :: n in CtxSet(k) + {y} ==> n in CtxSet(k0) + {y0} || fresh(n)
  {
    hide Repr, ReprCtx, NodeSet, Same, Facing, Plug, Height, CtxSet;
    x, y, stack, c, t, k := x0, y0, stack0, c0, t0, k0;
    FacingParts(c, t, x, k, y, stack);
    while x.link0 != null
      invariant Facing(c, t, x, k, y, stack) && t.Bin? && (x.link0 == null <==> t.left == Nil)
      invariant Plug(c, t) == Plug(c0, t0) && Todo(c) + Size(t) == Todo(c0) + Size(t0) && HeadOf(c) == HeadOf(c0)
      invariant y == y0 || fresh(y)
      invariant HeadOf(k) == HeadOf(k0)
      invariant forall n :: n in CtxSet(k) + {y} ==> n in CtxSet(k0) + {y0} || fresh(n)
      decreases t
    {
      StackFits(c, t, x, k, y, stack);
      assert 2 * |stack| < 2 * (AVL_MAX_HEIGHT + 1);
      x, y, stack, c, k := StepLeft(x, y, stack, c, t, k);
      t := t.left;
      FacingParts(c, t, x, k, y, stack);
    }
    FacingParts(c, t, x, k, y, stack);
    y.link0 := null;
    FacingNil(c, t, x, k, y, stack);
  }

  lemma StackFits(c: Ctx, t: Tree, x: Node, k: Ctx, y: Node, stack: seq<(Node, Node)>)
    requires Facing(c, t, x, k, y, stack) && Height(Plug(c, t)) < AVL_MAX_HEIGHT
    ensures |stack| <= AVL_MAX_HEIGHT
  {
    hide Half, Zip;
    PlugHeight(c, t);
    FewPairs(c, k);
  }

  lemma FacingNil(c: Ctx, t: Tree, x: Node, k: Ctx, y: Node, stack: seq<(Node, Node)>)
    requires Facing(c, t, x, k, y, stack) && t.left == Nil && y.link0 == null
    ensures LeftDone(c, t, x, k, y, Nil, stack)
  {
  }

  // ----- going right, and back up -----

  lemma FacingRight(c: Ctx, t: Tree, k: Ctx, y: Node, u: Tree, stack: seq<(Node, Node)>, y2: Node)
    requires t.Bin? && t.right.Bin? && MirrorShape(c, k) && stack == Pairs(c, k)
    requires Zip(Frame(c, t), RootOf(t.right), t.right) && Half(c, k, y) && y !in CtxSet(k)
    requires y.data == t.item && y.balance == t.bal && y.link1 == y2
    requires Repr(y.link0, u) && Same(t.left, u) && y !in NodeSet(u) && NodeSet(u) !! CtxSet(k)
    requires (CtxSet(Frame(c, t)) + NodeSet(t.right)) !! (CtxSet(k) + {y} + NodeSet(u) + {y2})
    requires y2 !in CtxSet(k) + {y} + NodeSet(u)
    ensures var k2 := Down(k, y, y.data, y.balance, Right, u);
            && CtxSet(k2) == CtxSet(k) + {y} + NodeSet(u)
            && Facing(Frame(c, t), t.right, t.right.node, k2, y2, stack)
  {
    hide Repr, ReprCtx, Zip, Same;
    assert Pairs(c, k) + [] == Pairs(c, k);
  }

  /** y's data and balance, then the step to a right child. */
  method StepRight(x: Node, y: Node, ghost u: Tree, ghost stack: seq<(Node, Node)>, ghost c: Ctx, ghost t: Tree, ghost k: Ctx)
      returns (x2: Node, y2: Node, ghost c2: Ctx, ghost k2: Ctx)
    requires LeftDone(c, t, x, k, y, u, stack) && t.right.Bin? && y.balance == x.balance && y.data == x.data
    modifies y`link1
    ensures fresh(y2) && c2 == Down(c, x, t.item, t.bal, Right, t.left) && Plug(c2, t.right) == Plug(c, t)
    ensures CtxSet(k2) == CtxSet(k) + {y} + NodeSet(u) && HeadOf(k2) == HeadOf(k)
    ensures Facing(c2, t.right, x2, k2, y2, stack)
  {
    hide Repr, ReprCtx, Same, NodeSet, CtxSet, Zip, Half, Pairs, MirrorShape;
    FacingParts(c, t, x, k, y, stack);
    NodesAllocated(u);
    StepDown(c, t, Right);
    RightRoot(c, t, x);
    y2 := new Node(Item(0, 0));
    y.link1 := y2;
    c2 := Frame(c, t);
    k2 := Down(k, y, y.data, y.balance, Right, u);
    FacingRight(c, t, k, y, u, stack, y2);
    x2 := x.link1;
  }

  lemma RightRoot(c: Ctx, t: Tree, x: Node)
    requires t.Bin? && t.right.Bin? && Zip(c, x, t)
    ensures x.link1 == t.right.node
  {
    RootIs(x.link1, t.right);
  }

  /** A finished node and its finished right subtree make a finished subtree. */
  lemma UnwindOne(c: Ctx, t: Tree, k: Ctx, y: Node, u: Tree)
    requires c.Down? && c.dir == Right && Half(c, k, y) && MirrorShape(c, k) && Repr(y, u) && Same(t, u)
    requires NodeSet(u) !! CtxSet(k)
    ensures var v := Bin(k.other, k.node, k.node.data, k.node.balance, u);
            && Half(c.up, k.up, k.node) && MirrorShape(c.up, k.up) && Repr(k.node, v)
            && Same(Bin(c.other, c.node, c.item, c.bal, t), v)
            && NodeSet(v) !! CtxSet(k.up) && CtxSet(k.up) + NodeSet(v) == CtxSet(k) + NodeSet(u)
            && CtxSet(k.up) <= CtxSet(k) && Pairs(c.up, k.up) == Pairs(c, k)
  {
    hide ReprCtx, Zip;
    assert Pairs(c.up, k.up) + [] == Pairs(c.up, k.up);
  }

  /** A finished subtree together with the finished nodes above it, up to the nearest node
      at which the path goes left, or to the head. */
  lemma {:induction false} Unwind(c: Ctx, t: Tree, x: Node?, k: Ctx, y: Node, u: Tree)
      returns (c2: Ctx, t2: Tree, k2: Ctx, u2: Tree)
    requires Zip(c, x, t) && Half(c, k, y) && MirrorShape(c, k) && Repr(y, u) && Same(t, u)
    requires NodeSet(u) !! CtxSet(k) && (CtxSet(c) + NodeSet(t)) !! (CtxSet(k) + NodeSet(u))
    ensures c2.Head? || c2.dir == Left
    ensures MirrorShape(c2, k2) && Pairs(c2, k2) == Pairs(c, k) && Todo(c2) == Todo(c)
    ensures Zip(c2, RootOf(t2), t2) && Half(c2, k2, RootOf(u2)) && Repr(RootOf(u2), u2) && Same(t2, u2) && u2.Bin?
    ensures NodeSet(u2) !! CtxSet(k2) && (CtxSet(c2) + NodeSet(t2)) !! (CtxSet(k2) + NodeSet(u2))
    ensures CtxSet(k2) <= CtxSet(k) && CtxSet(k2) + NodeSet(u2) == CtxSet(k) + NodeSet(u)
    ensures Plug(c2, t2) == Plug(c, t) && HeadOf(c2) == HeadOf(c) && HeadOf(k2) == HeadOf(k)
    decreases c
  {
    hide Repr, ReprCtx, NodeSet, CtxSet, Half, Same, Pairs, MirrorShape;
    RootIs(x, t);
    RootIs(y, u);
    ShapesAgree(c, k);
    NotBlank(y, u);
    if c.Head? || c.dir == Left {
      c2, t2, k2, u2 := c, t, k, u;
    } else {
      StepUp(c, x, t);
      UnwindOne(c, t, k, y, u);
      c2, t2, k2, u2 := Unwind(c.up, Mk(Right, t, c.node, c.item, c.bal, c.other), c.node, k.up, k.node,
                               Bin(k.other, k.node, k.node.data, k.node.balance, u));
    }
  }

  lemma ShapesAgree(c: Ctx, k: Ctx)
    requires MirrorShape(c, k)
    ensures c.Down? <==> k.Down?
  {
  }

  lemma NotBlank(y: Node, u: Tree)
    requires Repr(y, u)
    ensures u.Bin?
  {
  }

  lemma FilledIn(c: Ctx, t: Tree, x: Node, k: Ctx, y: Node, u: Tree, stack: seq<(Node, Node)>)
    requires LeftDone(c, t, x, k, y, u, stack) && y.data == x.data && y.balance == x.balance
    requires t.right == Nil && y.link1 == null
    ensures Zip(c, x, t) && Half(c, k, y) && MirrorShape(c, k) && stack == Pairs(c, k)
    ensures var v := Bin(u, y, y.data, y.balance, Nil);
            && Repr(y, v) && Same(t, v) && NodeSet(v) == NodeSet(u) + {y}
            && NodeSet(v) !! CtxSet(k) && (CtxSet(c) + NodeSet(t)) !! (CtxSet(k) + NodeSet(v))
  {
    hide Half, Zip, Pairs;
    FacingParts(c, t, x, k, y, stack);
    NilNodes();
  }

  lemma OnePair(c: Ctx, k: Ctx)
    requires MirrorShape(c, k) && (c.Head? || c.dir == Left)
    ensures |Pairs(c, k)| == 1 <==> c.Head?
    ensures c.Down? ==> Pairs(c, k) == Pairs(c.up, k.up) + [(c.node, k.node)]
  {
    if c.Down? {
      FewPairs(c.up, k.up);
    }
  }

  ghost function Rejoined(c: Ctx, t: Tree): (r: Tree)
    requires c.Down? && c.dir == Left
    ensures r.Bin? && r.left == t && r.right == c.other && r.node == c.node
    ensures Plug(c.up, r) == Plug(c, t) && Todo(c.up) + 1 + Size(r.right) == Todo(c)
  {
    Mk(Left, t, c.node, c.item, c.bal, c.other)
  }

  /** Back at a node whose left subtree has just been finished. */
  lemma Popped(c: Ctx, t: Tree, k: Ctx, u: Tree)
    requires c.Down? && c.dir == Left && MirrorShape(c, k)
    requires Zip(c, RootOf(t), t) && Half(c, k, RootOf(u)) && Repr(RootOf(u), u) && Same(t, u)
    requires NodeSet(u) !! CtxSet(k) && (CtxSet(c) + NodeSet(t)) !! (CtxSet(k) + NodeSet(u))
    ensures k.Down? && LeftDone(c.up, Rejoined(c, t), c.node, k.up, k.node, u, Pairs(c.up, k.up))
    ensures CtxSet(k.up) + {k.node} == CtxSet(k)
  {
    hide Repr, ReprCtx, Zip, Same, Pairs, MirrorShape, Half, NodeSet, CtxSet, Rejoined, Plug, Todo, Size;
    StepUp(c, RootOf(t), t);
    UpNodeSet(c, t);
    ShapeUp(c, k);
    HalfLeft(c, k, RootOf(u));
  }

  lemma UpNodeSet(c: Ctx, t: Tree)
    requires c.Down? && c.dir == Left
    ensures Rejoined(c, t) == Mk(c.dir, t, c.node, c.item, c.bal, c.other)
    ensures CtxSet(c.up) + NodeSet(Rejoined(c, t)) == CtxSet(c) + NodeSet(t)
  {
  }

  lemma HalfLeft(c: Ctx, k: Ctx, y: Node?)
    requires c.Down? && c.dir == Left && Half(c, k, y)
    ensures k.Down? && k.node.link0 == y && Half(c.up, k.up, k.node) && k.node !in CtxSet(k.up)
    ensures CtxSet(k.up) + {k.node} == CtxSet(k)
  {
    NilNodes();
  }

  lemma ShapeUp(c: Ctx, k: Ctx)
    requires c.Down? && MirrorShape(c, k)
    ensures k.Down? && MirrorShape(c.up, k.up)
  {
  }

  /** The inner "for (;;)": finishes nodes until one has a right child, which is entered, or
      the stack is down to the two heads. */
  method FinishUp(x0: Node, y0: Node, stack0: seq<(Node, Node)>, ghost u0: Tree, ghost c0: Ctx, ghost t0: Tree, ghost k0: Ctx)
      returns (done: bool, x: Node, y: Node, stack: seq<(Node, Node)>, ghost u: Tree, ghost c: Ctx, ghost t: Tree, ghost k: Ctx)
    requires LeftDone(c0, t0, x0, k0, y0, u0, stack0)
    modifies CtxSet(k0), y0
    ensures Plug(c, t) == Plug(c0, t0) && HeadOf(c) == HeadOf(c0) && HeadOf(k) == HeadOf(k0)
    ensures done ==> c.Head? && k.Head? && Repr(k.head.link0, u) && Same(t, u)
    ensures done ==> Zip(c, c.head.link0, t) && k.head !in NodeSet(u)
    ensures !done ==> Facing(c, t, x, k, y, stack) && Todo(c) + Size(t) < Todo(c0) + 1 + Size(t0.right)
    ensures !done ==> forall n :: n in CtxSet(k) + {y} ==> n in CtxSet(k0) + {y0} + NodeSet(u0) || fresh(n)
    ensures done ==> forall n :: n in NodeSet(u) ==> n in CtxSet(k0) + {y0} + NodeSet(u0) || fresh(n)
  {
    hide Repr, ReprCtx, NodeSet, CtxSet, Same, Half, Zip, Plug, Pairs, Todo, Size, MirrorShape, Facing;
    x, y, stack, u, c, t, k := x0, y0, stack0, u0, c0, t0, k0;
    LeftParts(c, t, x, k, y, u, stack);
    while true
      invariant LeftDone(c, t, x, k, y, u, stack) && t.Bin?
      invariant Plug(c, t) == Plug(c0, t0) && HeadOf(c) == HeadOf(c0) && HeadOf(k) == HeadOf(k0)
      invariant Todo(c) + 1 + Size(t.right) <= Todo(c0) + 1 + Size(t0.right)
      invariant CtxSet(k) + {y} + NodeSet(u) <= CtxSet(k0) + {y0} + NodeSet(u0)
      invariant CtxSet(k) + {y} <= CtxSet(k0) + {y0}
      decreases Todo(c) + Size(t.right)
    {
      LeftParts(c, t, x, k, y, u, stack);
      y.balance := x.balance;
      y.data := x.data;
      if x.link1 != null {
        ghost var was := u;
        x, y, c, k := StepRight(x, y, u, stack, c, t, k);
        SizeRight(c, t);
        t := t.right;
        return false, x, y, stack, u, c, t, k;
      }
      y.link1 := null;
      FilledIn(c, t, x, k, y, u, stack);
      ghost var v := Bin(u, y, y.data, y.balance, Nil);
      ghost var c2, t2, k2, u2 := Unwind(c, t, x, k, y, v);
      OnePair(c2, k2);
      if |stack| <= 1 {
        HeadsOnly(c2, t2, k2, u2);
        return true, x, y, stack, u2, c2, t2, k2;
      }
      Popped(c2, t2, k2, u2);
      x, y := stack[|stack| - 1].0, stack[|stack| - 1].1;
      stack := stack[..|stack| - 1];
      c, t, k, u := c2.up, Rejoined(c2, t2), k2.up, u2;
    }
  }

  lemma LeftParts(c: Ctx, t: Tree, x: Node, k: Ctx, y: Node, u: Tree, stack: seq<(Node, Node)>)
    requires LeftDone(c, t, x, k, y, u, stack)
    ensures t.Bin? && x.data == t.item && x.balance == t.bal && (x.link1 == null <==> t.right == Nil)
    ensures y !in CtxSet(c) && y !in NodeSet(t) && y !in CtxSet(k) && y !in NodeSet(u) && x != y
    ensures allocated(CtxSet(c)) && allocated(NodeSet(t)) && allocated(CtxSet(k)) && allocated(NodeSet(u))
  {
    hide Half, Zip, Same, Pairs;
    FacingParts(c, t, x, k, y, stack);
    NodesAllocated(u);
  }

  lemma SizeRight(c: Ctx, t: Tree)
    requires c.Down? && c.dir == Right && t.Bin?
    ensures Todo(c) + Size(t.right) < Todo(c.up) + 1 + Size(t.right)
  {
  }

  lemma HeadsOnly(c: Ctx, t: Tree, k: Ctx, u: Tree)
    requires c.Head? && MirrorShape(c, k) && Half(c, k, RootOf(u)) && Zip(c, RootOf(t), t) && NodeSet(u) !! CtxSet(k)
    requires Repr(RootOf(u), u)
    ensures k.Head? && Repr(k.head.link0, u) && Zip(c, c.head.link0, t) && k.head !in NodeSet(u)
    ensures HeadOf(c) == c.head && HeadOf(k) == k.head && Plug(c, t) == t && CtxSet(k) == {k.head}
  {
    hide Repr, NodeSet;
  }

  /** avl_copy, without a copy function: the original keeps its nodes and links. */
  method Copy(org: Table) returns (copy: Table)
    requires org.Valid() && org.count < MAX_ITEMS
    ensures org.Valid() && org.tree == old(org.tree)
    ensures fresh(copy) && fresh(copy.head) && fresh(NodeSet(copy.tree))
    ensures copy.Valid() && Same(org.tree, copy.tree) && copy.count == org.count
    ensures NodeSet(copy.tree) !! NodeSet(org.tree)
  {
    hide Repr, ReprCtx, NodeSet, CtxSet, Same, Half, Zip, Plug, Pairs, Todo, Size, MirrorShape, Facing, Avl, Sorted, Items, LeftDone;
    NodesAllocated(org.tree);
    ghost var whole := org.tree;
    copy := new Table();
    CountIs(org);
    NilSame();
    if org.count == 0 {
      return;
    }
    HeightBound(whole);
    var root := org.head.link0;
    var y := new Node(Item(0, 0));
    copy.head.link0 := y;
    var stack := [(org.head, copy.head)];
    ghost var c, t, k := Head(org.head), whole, Head(copy.head);
    StartFacing(org, root, copy.head, y, stack);
    var x: Node := root;
    var done := false;
    ghost var u := Nil;
    while !done
      invariant fresh(copy) && fresh(copy.head) && copy.count == 0 && HeadOf(k) == copy.head && HeadOf(c) == org.head
      invariant Plug(c, t) == whole && org.tree == whole
      invariant !done ==> Facing(c, t, x, k, y, stack) && forall n :: n in CtxSet(k) + {y} ==> fresh(n)
      invariant done ==> c.Head? && k.Head? && Repr(k.head.link0, u) && Same(t, u) && Zip(c, c.head.link0, t)
      invariant done ==> k.head !in NodeSet(u) && forall n :: n in NodeSet(u) ==> fresh(n)
      decreases if done then 0 else Todo(c) + Size(t) + 1
    {
      assert y in CtxSet(k) + {y};
      x, y, stack, c, t, k := GoLeft(x, y, stack, c, t, k);
      assert forall n :: n in CtxSet(k) + {y} ==> fresh(n);
      assert y in CtxSet(k) + {y} && forall n :: n in CtxSet(k) ==> n in CtxSet(k) + {y};
      SizeParts(c, t, x, k, y, stack);
      done, x, y, stack, u, c, t, k := FinishUp(x, y, stack, Nil, c, t, k);
    }
    PlugHeads(c, t);
    copy.tree := u;
    copy.count := org.count;
    CopyDone(org, copy.head, whole, u);
  }

  lemma PlugHeads(c: Ctx, t: Tree)
    ensures c.Head? ==> Plug(c, t) == t && HeadOf(c) == c.head
  {
  }

  lemma CountIs(table: Table)
    requires table.Valid()
    ensures table.count == |Items(table.tree)| && Avl(table.tree) && (table.count == 0 ==> table.tree == Nil)
  {
  }

  lemma NilSame()
    ensures Same(Nil, Nil) && NodeSet(Nil) == {}
  {
  }

  lemma StartFacing(org: Table, x: Node?, head: Node, y: Node, stack: seq<(Node, Node)>)
    requires org.Valid() && x == org.head.link0 && org.count > 0 && head.link0 == y && y != head
    requires stack == [(org.head, head)] && {head, y} !! ({org.head} + NodeSet(org.tree))
    ensures x != null && Facing(Head(org.head), org.tree, x, Head(head), y, stack)
    ensures Plug(Head(org.head), org.tree) == org.tree && CtxSet(Head(head)) == {head}
    ensures HeadOf(Head(head)) == head && HeadOf(Head(org.head)) == org.head
  {
  }

  lemma SizeParts(c: Ctx, t: Tree, x: Node, k: Ctx, y: Node, stack: seq<(Node, Node)>)
    requires LeftDone(c, t, x, k, y, Nil, stack)
    ensures t.Bin? && Todo(c) + 1 + Size(t.right) <= Todo(c) + Size(t) && NodeSet(Nil) == {}
  {
  }

  lemma CopyDone(org: Table, head: Node, t: Tree, u: Tree)
    requires Avl(t) && Sorted(Items(t)) && Same(t, u) && Repr(head.link0, u) && head !in NodeSet(u)
    ensures Zip(Head(head), head.link0, u) && Avl(u) && Sorted(Items(u)) && |Items(u)| == |Items(t)|
  {
    SameItems(t, u);
    SameAvl(t, u);
  }
}
