/** The steps of avl_delete after the node to remove has been found: splicing it out
    in one of three ways, and one turn of the rebalancing loop. */
module AvlDeletion {
  import opened AvlTree
  import opened AvlHeap
  import opened AvlHeight

  /** The stack pa[] that goes with a path, the pseudo-root first. */
  ghost function Nodes(c: Ctx): seq<Node> {
    match c
    case Head(h) => [h]
    case Down(up, n, _, _, _, _) => Nodes(up) + [n]
  }

  /** The stack da[] that goes with a path. */
  ghost function Dirs(c: Ctx): seq<Dir> {
    match c
    case Head(_) => [Left]
    case Down(up, _, _, _, d, _) => Dirs(up) + [d]
  }

  lemma StackTop(c: Ctx)
    ensures |Nodes(c)| == |Dirs(c)| == Depth(c) + 1
    ensures Nodes(c)[|Nodes(c)| - 1] == HoleNode(c) && Dirs(c)[|Dirs(c)| - 1] == HoleDir(c)
    ensures c.Down? ==> Nodes(c)[..|Nodes(c)| - 1] == Nodes(c.up) && Dirs(c)[..|Dirs(c)| - 1] == Dirs(c.up)
  {
    if c.Down? {
      StackTop(c.up);
    }
  }

  // ----- the run of left links below the removed node -----

  ghost predicate LeftSpine(cs: Ctx, c0: Ctx) {
    cs == c0 || (cs.Down? && cs.dir == Left && LeftSpine(cs.up, c0))
  }

  /** What hangs below c0 when x fills the hole of cs. */
  ghost function Between(cs: Ctx, c0: Ctx, x: Tree): Tree {
    if cs == c0 || cs.Head? then x
    else Between(cs.up, c0, Mk(cs.dir, x, cs.node, cs.item, cs.bal, cs.other))
  }

  ghost function Rebase(cs: Ctx, c0: Ctx, c1: Ctx): Ctx {
    if cs == c0 || cs.Head? then c1
    else Down(Rebase(cs.up, c0, c1), cs.node, cs.item, cs.bal, cs.dir, cs.other)
  }

  ghost function After(cs: Ctx, c0: Ctx): seq<Item> {
    if cs == c0 || cs.Head? then []
    else [cs.item] + Items(cs.other) + After(cs.up, c0)
  }

  lemma {:induction false} BetweenPlug(cs: Ctx, c0: Ctx, c1: Ctx, x: Tree)
    requires LeftSpine(cs, c0)
    ensures Plug(cs, x) == Plug(c0, Between(cs, c0, x))
    ensures Plug(Rebase(cs, c0, c1), x) == Plug(c1, Between(cs, c0, x))
    ensures HeadOf(cs) == HeadOf(c0) && HeadOf(Rebase(cs, c0, c1)) == HeadOf(c1)
  {
    if cs != c0 {
      BetweenPlug(cs.up, c0, c1, Mk(cs.dir, x, cs.node, cs.item, cs.bal, cs.other));
    }
  }

  lemma {:induction false} SpineItems(cs: Ctx, c0: Ctx, x: Tree)
    requires LeftSpine(cs, c0)
    ensures Items(Between(cs, c0, x)) == Items(x) + After(cs, c0)
  {
    if cs != c0 {
      SpineItems(cs.up, c0, Mk(cs.dir, x, cs.node, cs.item, cs.bal, cs.other));
    }
  }

  /** The successor takes over the place, the balance and the stack slot of p. */
  ghost predicate TakesOver(c0: Ctx, c1: Ctx) {
    && c0.Down? && c1.Down? && c1.up == c0.up && c1.bal == c0.bal
    && c1.dir == c0.dir && c1.other == c0.other
  }

  lemma {:induction false} RebaseAvl(cs: Ctx, c0: Ctx, c1: Ctx, h: nat)
    requires LeftSpine(cs, c0) && TakesOver(c0, c1)
    ensures AvlAround(cs, h) <==> AvlAround(Rebase(cs, c0, c1), h)
  {
    if cs != c0 {
      RebaseAvl(cs.up, c0, c1, 1 + Max(h, Height(cs.other)));
    }
  }

  lemma {:induction false} RebaseStacks(cs: Ctx, c0: Ctx, c1: Ctx)
    requires LeftSpine(cs, c0) && TakesOver(c0, c1)
    ensures Depth(c0) < |Nodes(cs)|
    ensures Dirs(Rebase(cs, c0, c1)) == Dirs(cs)
    ensures Nodes(Rebase(cs, c0, c1)) == Nodes(cs)[Depth(c0) := c1.node]
  {
    if cs != c0 {
      RebaseStacks(cs.up, c0, c1);
    } else {
      StackTop(c0.up);
    }
  }

  lemma Regroup(pre: seq<Item>, l: seq<Item>, it: Item, r: seq<Item>, post: seq<Item>)
    ensures pre + (l + [it] + r) + post == (pre + l) + [it] + (r + post)
    ensures pre + (l + r) + post == (pre + l) + (r + post)
  {
  }

  /** A subtree that lost just its root's item turns into a sorted removal. */
  lemma RemoveInside(c: Ctx, t: Tree, u: Tree)
    requires t.Bin? && Sorted(Items(Plug(c, t))) && Items(u) == Items(t.left) + Items(t.right)
    ensures Items(Plug(c, u)) == RemoveKey(Items(Plug(c, t)), t.item.key)
    ensures Sorted(Items(Plug(c, u))) && |Items(Plug(c, u))| == |Items(Plug(c, t))| - 1
    ensures HasKey(Items(Plug(c, t)), t.item.key)
  {
    hide Sorted, Plug, Pre, Post, RemoveKey, Below, Above, Items;
    PlugItems(c, t);
    PlugItems(c, u);
    MkItems(Left, t.left, t.node, t.item, t.bal, t.right);
    var a, b := Pre(c) + Items(t.left), Items(t.right) + Post(c);
    Regroup(Pre(c), Items(t.left), t.item, Items(t.right), Post(c));
    SortedSplit(a, t.item, b);
    RemoveKeyAt(a, t.item, b);
    SortedCut(a, t.item, b);
    assert (a + [t.item] + b)[|a|] == t.item;
  }

  // ----- the three ways to splice a node out -----

  /** What splicing leaves for the rebalancing loop: a hole one level too low, with
      the item gone and everything else in order. */
  ghost predicate Spliced(c: Ctx, t: Tree, c': Ctx, hole: Tree)
    requires t.Bin?
  {
    && HeadOf(c') == HeadOf(c)
    && Avl(hole) && AvlAround(c', Height(hole) + 1)
    && Items(Plug(c', hole)) == RemoveKey(Items(Plug(c, t)), t.item.key)
    && Sorted(Items(Plug(c', hole))) && |Items(Plug(c', hole))| == |Items(Plug(c, t))| - 1
    && HasKey(Items(Plug(c, t)), t.item.key)
  }

  /** p without a right child: its left child moves up. */
  lemma SpliceLeaf(c: Ctx, t: Tree)
    requires t.Bin? && t.right == Nil && Avl(t) && AvlAround(c, Height(t)) && Sorted(Items(Plug(c, t)))
    ensures Spliced(c, t, c, t.left)
  {
    assert Items(t.left) == Items(t.left) + Items(t.right);
    RemoveInside(c, t, t.left);
  }

  /** The frame of the removed node p, and the same frame taken over by s. */
  ghost function Frame(c: Ctx, t: Tree): Ctx
    requires t.Bin?
  {
    Down(c, t.node, t.item, t.bal, Right, t.left)
  }

  ghost function NewFrame(c: Ctx, t: Tree, s: Tree): Ctx
    requires t.Bin? && s.Bin?
  {
    Down(c, s.node, s.item, t.bal, Right, t.left)
  }

  /** s, at the end of a run of left links below p's right link, is p's successor. */
  ghost predicate Successor(c: Ctx, t: Tree, cs: Ctx, s: Tree) {
    && t.Bin? && s.Bin? && s.left == Nil
    && LeftSpine(cs, Frame(c, t)) && Between(cs, Frame(c, t), s) == t.right
  }

  /** p's subtree with s cut out from below, and then with s in p's place. */
  ghost function CutTree(c: Ctx, t: Tree, cs: Ctx, s: Tree): Tree
    requires Successor(c, t, cs, s)
  {
    Bin(t.left, t.node, t.item, t.bal, Between(cs, Frame(c, t), s.right))
  }

  ghost function MovedTree(c: Ctx, t: Tree, cs: Ctx, s: Tree): Tree
    requires Successor(c, t, cs, s)
  {
    Bin(t.left, s.node, s.item, t.bal, Between(cs, Frame(c, t), s.right))
  }

  lemma SuccessorShape(c: Ctx, t: Tree, cs: Ctx, s: Tree)
    requires Successor(c, t, cs, s)
    ensures var c' := Rebase(cs, Frame(c, t), NewFrame(c, t, s));
            && Plug(cs, s) == Plug(c, t)
            && Plug(cs, s.right) == Plug(c, CutTree(c, t, cs, s))
            && Plug(c', s.right) == Plug(c, MovedTree(c, t, cs, s))
            && HeadOf(cs) == HeadOf(c) == HeadOf(c')
  {
    hide LeftSpine, Between, Rebase;
    BetweenPlug(cs, Frame(c, t), NewFrame(c, t, s), s);
    BetweenPlug(cs, Frame(c, t), NewFrame(c, t, s), s.right);
  }

  lemma SuccessorItems(c: Ctx, t: Tree, cs: Ctx, s: Tree)
    requires Successor(c, t, cs, s)
    ensures Items(MovedTree(c, t, cs, s)) == Items(t.left) + Items(t.right)
  {
    hide LeftSpine, Between, After;
    var c0 := Frame(c, t);
    SpineItems(cs, c0, s);
    SpineItems(cs, c0, s.right);
    assert Items(s) == [s.item] + Items(s.right);
  }

  lemma SuccessorBalance(c: Ctx, t: Tree, cs: Ctx, s: Tree)
    requires Successor(c, t, cs, s) && Avl(t) && AvlAround(c, Height(t))
    ensures Avl(s.right)
    ensures AvlAround(Rebase(cs, Frame(c, t), NewFrame(c, t, s)), Height(s.right) + 1)
  {
    hide LeftSpine, Between, Rebase, AvlAround, Plug;
    PlugAvl(c, t);
    SuccessorShape(c, t, cs, s);
    PlugAvl(cs, s);
    RebaseAvl(cs, Frame(c, t), NewFrame(c, t, s), Height(s));
  }

  /** s takes p's place: the three links and one balance that the source rewrites. */
  lemma SpliceSuccessor(c: Ctx, t: Tree, cs: Ctx, s: Tree)
    requires Successor(c, t, cs, s)
    requires Avl(t) && AvlAround(c, Height(t)) && Sorted(Items(Plug(c, t)))
    ensures Spliced(c, t, Rebase(cs, Frame(c, t), NewFrame(c, t, s)), s.right)
  {
    hide Avl, AvlAround, Sorted, Items, HasKey, RemoveKey, LeftSpine, Between, Rebase, Plug;
    SuccessorShape(c, t, cs, s);
    SuccessorItems(c, t, cs, s);
    SuccessorBalance(c, t, cs, s);
    RemoveInside(c, t, MovedTree(c, t, cs, s));
  }

  /** Two looks at the same linked nodes see the same nodes. */
  lemma SameNodes(c: Ctx, t: Tree, c': Ctx, t': Tree)
    requires Plug(c, t) == Plug(c', t') && HeadOf(c) == HeadOf(c')
    ensures AllNodes(c, t) == AllNodes(c', t')
  {
    PlugNodes(c, t);
    PlugNodes(c', t');
  }

  /** What the zipper at s says about s, its parent and the rest. */
  lemma HoleFacts(c: Ctx, p: Node?, t: Tree)
    requires Zip(c, p, t) && t.Bin?
    ensures p == t.node && p.data == t.item && p.balance == t.bal && p !in CtxSet(c) && p in AllNodes(c, t)
    ensures ReprCtx(c, p) && Repr(p.link0, t.left) && Repr(p.link1, t.right)
    ensures RootOf(t.left) == p.link0 && RootOf(t.right) == p.link1
    ensures p !in NodeSet(t.left) && p !in NodeSet(t.right) && NodeSet(t.left) !! NodeSet(t.right)
    ensures CtxSet(c) !! NodeSet(t.left) && CtxSet(c) !! NodeSet(t.right)
    ensures HoleNode(c) in CtxSet(c) && CtxSet(c) <= AllNodes(c, t)
    ensures allocated(CtxSet(c)) && allocated(NodeSet(t.left)) && allocated(NodeSet(t.right))
    ensures NodeSet(t.left) <= AllNodes(c, t) && NodeSet(t.right) <= AllNodes(c, t)
    ensures AllNodes(c, t.left) == AllNodes(c, t) - NodeSet(t.right) - {p}
    ensures AllNodes(c, t.right) == AllNodes(c, t) - NodeSet(t.left) - {p}
  {
    HoleNodes(c, t);
    CtxAllocated(c);
    NodesAllocated(t);
  }

  /** Puts s, the successor, into p's place: s.link[0] and s.link[1] take over p's
      children, r (s's parent) keeps s's right child, and z points to s. */
  method MoveSuccessor(p: Node, r: Node, s: Node, z: Node, d: Dir,
                       ghost c: Ctx, ghost t: Tree, ghost cs: Ctx, ghost ts: Tree)
    requires Successor(c, t, cs, ts) && cs != Frame(c, t)
    requires Zip(c, p, t) && Zip(cs, s, ts)
    requires r == HoleNode(cs) && z == HoleNode(c) && d == HoleDir(c)
    modifies AllNodes(c, t)`link0, AllNodes(c, t)`link1, AllNodes(c, t)`balance
    ensures Zip(Rebase(cs, Frame(c, t), NewFrame(c, t, ts)), RootOf(ts.right), ts.right)
    ensures AllNodes(Rebase(cs, Frame(c, t), NewFrame(c, t, ts)), ts.right) == AllNodes(c, t) - {p}
  {
    hide Repr, ReprCtx, NodeSet, CtxSet, Plug, Rebase, Between, AllNodes, Zip, HeadOf;
    ghost var cut := CutTree(c, t, cs, ts);
    SuccessorShape(c, t, cs, ts);
    SameNodes(c, t, cs, ts);
    HoleFacts(cs, s, ts);
    HoleFacts(c, p, t);
    s.link0 := p.link0;
    Relink(r, Left, s.link1, cs, s, ts.right);
    ZipMove(cs, s.link1, ts.right, c, cut);
    SameNodes(cs, ts.right, c, cut);
    NilNodes();
    HoleFacts(c, p, cut);
    assert s !in AllNodes(c, cut);
    s.link1 := p.link1;
    s.balance := p.balance;
    Assemble(Left, t.left, s, cut.right);
    assert MovedTree(c, t, cs, ts) == Mk(Left, t.left, s, s.data, s.balance, cut.right);
    Relink(z, d, s, c, p, MovedTree(c, t, cs, ts));
    ZipMove(c, s, MovedTree(c, t, cs, ts), Rebase(cs, Frame(c, t), NewFrame(c, t, ts)), ts.right);
    SameNodes(c, MovedTree(c, t, cs, ts), Rebase(cs, Frame(c, t), NewFrame(c, t, ts)), ts.right);
    RootSwapped(c, cut, s, MovedTree(c, t, cs, ts));
  }

  lemma RootSwapped(c: Ctx, t: Tree, s: Node, u: Tree)
    requires t.Bin? && u.Bin? && u.left == t.left && u.right == t.right && u.node == s
    requires t.node !in CtxSet(c) + NodeSet(t.left) + NodeSet(t.right)
    ensures AllNodes(c, u) == AllNodes(c, t) - {t.node} + {s}
  {
  }

  lemma NilNodes()
    ensures NodeSet(Nil) == {}
  {
  }

  /** p's right child r has no left child of its own. */
  method MoveChild(p: Node, r: Node, z: Node, d: Dir, ghost c: Ctx, ghost t: Tree)
    requires t.Bin? && t.right.Bin? && t.right.left == Nil
    requires Zip(c, p, t) && r == p.link1 && z == HoleNode(c) && d == HoleDir(c)
    modifies AllNodes(c, t)`link0, AllNodes(c, t)`link1, AllNodes(c, t)`balance
    ensures Zip(NewFrame(c, t, t.right), RootOf(t.right.right), t.right.right)
    ensures AllNodes(NewFrame(c, t, t.right), t.right.right) == AllNodes(c, t) - {p}
  {
    hide Repr, ReprCtx, NodeSet, CtxSet, Plug, AllNodes, HeadOf;
    ghost var tr := t.right;
    HoleFacts(c, p, t);
    StepDown(c, t, Right);
    HoleFacts(Frame(c, t), r, tr);
    Parts(r, tr, Left);
    r.link0 := p.link0;
    r.balance := p.balance;
    Assemble(Left, t.left, r, tr.right);
    ghost var u := Bin(t.left, r, tr.item, t.bal, tr.right);
    assert u == Mk(Left, t.left, r, r.data, r.balance, tr.right);
    Relink(z, d, r, c, p, u);
    StepDown(c, u, Right);
    NilNodes();
    ChildNodes(c, t, u);
    RootIs(r.link1, tr.right);
  }

  lemma ChildNodes(c: Ctx, t: Tree, u: Tree)
    requires t.Bin? && t.right.Bin? && t.right.left == Nil
    requires u.Bin? && u.left == t.left && u.right == t.right.right && u.node == t.right.node
    requires t.node !in CtxSet(c) + NodeSet(t.left) + NodeSet(t.right)
    ensures AllNodes(c, u) == AllNodes(c, t) - {t.node}
  {
  }

  lemma PushStack(c: Ctx, n: Node, item: Item, b: int, d: Dir, o: Tree)
    ensures Nodes(Down(c, n, item, b, d, o)) == Nodes(c) + [n]
    ensures Dirs(Down(c, n, item, b, d, o)) == Dirs(c) + [d]
  {
  }

  /** Room for one more entry while there is still a node below the hole. */
  lemma StackRoom(c: Ctx, t: Tree, whole: Tree)
    requires Plug(c, t) == whole && t.Bin? && Height(whole) < AVL_MAX_HEIGHT
    ensures |Nodes(c)| == |Dirs(c)| < AVL_MAX_HEIGHT
  {
    PlugHeight(c, t);
    StackTop(c);
  }

  /** The run of left links from p's right child r down to p's successor s. */
  method FindSuccessor(p: Node, pa0: seq<Node>, da0: seq<Dir>, ghost c: Ctx, ghost t: Tree)
      returns (r: Node, s: Node, pa: seq<Node>, da: seq<Dir>, ghost cs: Ctx, ghost ts: Tree)
    requires t.Bin? && Zip(c, p, t) && pa0 == Nodes(c) && da0 == Dirs(c)
    requires Height(Plug(c, t)) < AVL_MAX_HEIGHT
    requires t.right.Bin? && t.right.left.Bin?
    ensures Successor(c, t, cs, ts) && cs != Frame(c, t) && Zip(cs, s, ts) && r == HoleNode(cs) && s == ts.node
    ensures pa == Nodes(cs) && da == Dirs(cs)
  {
    hide Nodes, Dirs, Plug, Repr, ReprCtx, NodeSet, CtxSet, Height;
    RootOfZip(c, p, t);
    r := p.link1;
    pa, da := pa0 + [p], da0 + [Right];
    cs := Frame(c, t);
    ghost var tr := t.right;
    PushStack(c, p, t.item, t.bal, Right, t.left);
    StepDown(c, t, Right);
    while true
      invariant Zip(cs, r, tr) && tr.Bin? && tr.left.Bin? && Plug(cs, tr) == Plug(c, t)
      invariant LeftSpine(cs, Frame(c, t)) && Between(cs, Frame(c, t), tr) == t.right
      invariant pa == Nodes(cs) && da == Dirs(cs)
      decreases tr
    {
      StackRoom(cs, tr, Plug(c, t));
      assert |pa| < AVL_MAX_HEIGHT;
      RootOfZip(cs, r, tr);
      pa, da := pa + [r], da + [Left];
      PushStack(cs, r, tr.item, tr.bal, Left, tr.right);
      StepDown(cs, tr, Left);
      SpineGrows(cs, Frame(c, t), tr);
      cs, tr := Down(cs, r, tr.item, tr.bal, Left, tr.right), tr.left;
      s := r.link0;
      RootOfZip(cs, s, tr);
      if s.link0 == null {
        break;
      }
      r := s;
    }
    ts := tr;
  }

  lemma RootOfZip(c: Ctx, p: Node?, t: Tree)
    requires Zip(c, p, t) && t.Bin?
    ensures p == t.node && p.data == t.item && p.balance == t.bal
    ensures (p.link0 == null <==> t.left == Nil) && (p.link1 == null <==> t.right == Nil)
  {
    RootIs(p.link0, t.left);
    RootIs(p.link1, t.right);
  }

  lemma SpineGrows(cs: Ctx, c0: Ctx, t: Tree)
    requires LeftSpine(cs, c0) && t.Bin?
    ensures var more := Down(cs, t.node, t.item, t.bal, Left, t.right);
            LeftSpine(more, c0) && more != c0 && Between(more, c0, t.left) == Between(cs, c0, t)
  {
    var more := Down(cs, t.node, t.item, t.bal, Left, t.right);
    SpineDeeper(cs, c0);
    assert Depth(more) > Depth(c0);
  }

  lemma SpineDeeper(cs: Ctx, c0: Ctx)
    requires LeftSpine(cs, c0)
    ensures Depth(cs) >= Depth(c0)
  {
  }

  /** Takes p out of the tree; afterwards only the heights along the path are off. */
  method Splice(p: Node, pa0: seq<Node>, da0: seq<Dir>, ghost c: Ctx, ghost t: Tree)
      returns (pa: seq<Node>, da: seq<Dir>, ghost c': Ctx, ghost hole: Tree)
    requires t.Bin? && Zip(c, p, t) && pa0 == Nodes(c) && da0 == Dirs(c)
    requires Avl(t) && AvlAround(c, Height(t)) && Sorted(Items(Plug(c, t)))
    requires Height(Plug(c, t)) < AVL_MAX_HEIGHT
    modifies AllNodes(c, t)`link0, AllNodes(c, t)`link1, AllNodes(c, t)`balance
    ensures Zip(c', RootOf(hole), hole) && Spliced(c, t, c', hole)
    ensures pa == Nodes(c') && da == Dirs(c')
    ensures AllNodes(c', hole) == AllNodes(c, t) - {p}
  {
    hide Nodes, Dirs, Plug, Repr, ReprCtx, NodeSet, CtxSet, Height, Avl, AvlAround, Items, Sorted, AllNodes, Spliced, LeftSpine, Between, Rebase;
    StackTop(c);
    StackRoom(c, t, Plug(c, t));
    CtxAllocated(c);
    NodesAllocated(t);
    HoleFacts(c, p, t);
    RootOfZip(c, p, t);
    var z, d := pa0[|pa0| - 1], da0[|da0| - 1];
    if p.link1 == null {
      Relink(z, d, p.link0, c, p, t.left);
      SpliceLeaf(c, t);
      NilNodes();
      return pa0, da0, c, t.left;
    }
    var r := p.link1;
    StepDown(c, t, Right);
    RootOfZip(Frame(c, t), r, t.right);
    if r.link0 == null {
      MoveChild(p, r, z, d, c, t);
      NearSuccessor(c, t);
      SpliceSuccessor(c, t, Frame(c, t), t.right);
      PushStack(c, r, t.right.item, t.bal, Right, t.left);
      pa, da := pa0 + [r], da0 + [Right];
      c', hole := NewFrame(c, t, t.right), t.right.right;
    } else {
      var j := |pa0|;
      var s;
      ghost var cs, ts;
      r, s, pa, da, cs, ts := FindSuccessor(p, pa0, da0, c, t);
      MoveSuccessor(p, r, s, z, d, c, t, cs, ts);
      SpliceSuccessor(c, t, cs, ts);
      RebaseStacks(cs, Frame(c, t), NewFrame(c, t, ts));
      pa := pa[j := s];
      c', hole := Rebase(cs, Frame(c, t), NewFrame(c, t, ts)), ts.right;
    }
  }

  lemma NearSuccessor(c: Ctx, t: Tree)
    requires t.Bin? && t.right.Bin? && t.right.left == Nil
    ensures Successor(c, t, Frame(c, t), t.right)
    ensures Rebase(Frame(c, t), Frame(c, t), NewFrame(c, t, t.right)) == NewFrame(c, t, t.right)
  {
  }

  // ----- one turn of the rebalancing loop -----

  /** Moves y's balance away from the hole and steps up to y. */
  method LeanAway(y: Node, d: Dir, ghost c: Ctx, ghost t: Tree)
    requires c.Down? && y == c.node && d == c.dir && Zip(c, RootOf(t), t)
    modifies y`balance
    ensures Zip(c.up, y, Mk(d, t, y, c.item, c.bal - Lean(d), c.other))
    ensures AllNodes(c.up, Mk(d, t, y, c.item, c.bal - Lean(d), c.other)) == AllNodes(c, t)
    ensures y.balance == c.bal - Lean(d)
  {
    CtxAllocated(c);
    NodesAllocated(t);
    assert Repr(y.Link(Opp(d)), c.other) && ReprCtx(c.up, y);
    y.balance := y.balance - Lean(d);
    Assemble(d, t, y, c.other);
  }

  /** One turn: the subtree below y got lower; restore the balance at y and tell
      whether the rest of the path is unaffected. z is the next node up. */
  method RebalanceUp(y: Node, d: Dir, z: Node, zd: Dir, ghost c: Ctx, ghost t: Tree)
      returns (stop: bool, ghost s: Tree)
    requires c.Down? && y == c.node && d == c.dir && z == HoleNode(c.up) && zd == HoleDir(c.up)
    requires Zip(c, RootOf(t), t) && Avl(t) && AvlAround(c, Height(t) + 1)
    modifies AllNodes(c, t)`link0, AllNodes(c, t)`link1, AllNodes(c, t)`balance
    ensures CanShrink(c) && (s, stop) == Shrink(c, t)
    ensures Zip(c.up, RootOf(s), s) && AllNodes(c.up, s) == AllNodes(c, t)
  {
    hide Repr, ReprCtx, NodeSet, CtxSet, Avl, AvlAround, Height, Single, Double, AllNodes;
    ShrinkDefined(c, Height(t) + 1);
    InnerBounds(c, Height(t) + 1);
    ghost var m := Mk(d, t, y, c.item, c.bal - Lean(d), c.other);
    UpNodes(c, t);
    LeanAway(y, d, c, t);
    var e := Opp(d);
    s := m;
    if y.balance == Lean(e) {
      stop := true;
    } else if y.balance == 2 * Lean(e) {
      HoleFacts(c.up, y, m);
      Parts(y, m, e);
      var x := y.Link(e);
      Parts(x, c.other, e);
      CtxAllocated(c.up);
      var w;
      if x.balance == -Lean(e) {
        w := RotateDouble(y, e, m);
        s := Double(e, m);
        stop := false;
      } else {
        stop := x.balance == 0;
        w := RotateSingle(y, e, m);
        s := Single(e, m);
      }
      RootIs(w, s);
      SameAllNodes(c.up, m, s);
      Relink(z, zd, w, c.up, y, s);
    } else {
      stop := false;
    }
  }

  lemma UpNodes(c: Ctx, t: Tree)
    requires c.Down?
    ensures c.node in AllNodes(c, t) && HoleNode(c.up) in AllNodes(c, t)
    ensures forall b :: NodeSet(Mk(c.dir, t, c.node, c.item, b, c.other)) <= AllNodes(c, t)
  {
    HoleNodes(c.up, Nil);
  }

  lemma SameAllNodes(c: Ctx, t: Tree, u: Tree)
    requires NodeSet(t) == NodeSet(u)
    ensures AllNodes(c, t) == AllNodes(c, u)
  {
  }

  lemma InnerBounds(c: Ctx, h: nat)
    requires c.Down? && AvlAround(c, h)
    ensures c.other.Bin? && Child(c.dir, c.other).Bin? ==> -1 <= Child(c.dir, c.other).bal <= 1
  {
    if c.other.Bin? {
      assert Avl(Child(c.dir, c.other));
    }
  }

  // ----- lemmas for the whole operation -----

  lemma HeadStack(h: Node)
    ensures Nodes(Head(h)) == [h] && Dirs(Head(h)) == [Left]
  {
  }

  lemma NotEmpty(c: Ctx, p: Node?, t: Tree)
    requires Zip(c, p, t)
    ensures p != null <==> t.Bin?
    ensures RootOf(t) == p
  {
    RootIs(p, t);
  }

  lemma MissingKey(c: Ctx, key: int)
    requires OnPath(c, key) && Sorted(Items(Plug(c, Nil)))
    ensures !HasKey(Items(Plug(c, Nil)), key)
  {
    PlugItems(c, Nil);
    OnPathBounds(c, Nil, key);
    NotBetween(Pre(c), Post(c), key);
    assert Pre(c) + [] + Post(c) == Pre(c) + Post(c);
  }

  lemma ItemInside(c: Ctx, t: Tree)
    requires t.Bin?
    ensures t.item in Items(Plug(c, t))
  {
    PlugItems(c, t);
    assert t.item in Items(t);
  }

  lemma UpItems(c: Ctx, t: Tree)
    requires CanShrink(c)
    ensures Items(Plug(c.up, Shrink(c, t).0)) == Items(Plug(c, t))
  {
    ShrinkItems(c, t);
    PlugItems(c.up, Shrink(c, t).0);
    PlugItems(c.up, Mk(c.dir, t, c.node, c.item, c.bal, c.other));
  }

  lemma DepthZero(c: Ctx)
    ensures Depth(c) == 0 <==> c.Head?
    ensures c.Down? ==> HeadOf(c) == HeadOf(c.up)
  {
  }

  lemma WholeNodes(c: Ctx, p: Node?, t: Tree)
    requires Zip(c, p, t) && t.Bin?
    ensures AllNodes(c, t) == NodeSet(Plug(c, t)) + {HeadOf(c)}
    ensures HeadOf(c) !in NodeSet(Plug(c, t)) && t.node in NodeSet(Plug(c, t))
  {
    PlugNodes(c, t);
    ZipUp(c, p, t);
    HeadInside(c);
  }

  /** The whole tree without p, back under the pseudo-root. */
  lemma Settled(c: Ctx, hole: Tree, c0: Ctx, t: Tree)
    requires t.Bin? && Zip(c, RootOf(hole), hole) && HeadOf(c) == HeadOf(c0)
    requires AllNodes(c, hole) == AllNodes(c0, t) - {t.node}
    requires HeadOf(c0) !in NodeSet(Plug(c0, t)) && t.node in NodeSet(Plug(c0, t))
    requires Avl(hole) && (c.Head? || AvlAround(c, Height(hole)))
    ensures Zip(Head(HeadOf(c)), HeadOf(c).link0, Plug(c, hole)) && Avl(Plug(c, hole))
    ensures NodeSet(Plug(c, hole)) == NodeSet(Plug(c0, t)) - {t.node}
  {
    PlugAvl(c, hole);
    ZipUp(c, RootOf(hole), hole);
    PlugNodes(c, hole);
    PlugNodes(c0, t);
    var h, a, b := HeadOf(c), NodeSet(Plug(c, hole)), NodeSet(Plug(c0, t)) - {t.node};
    assert a + {h} == b + {h} && h !in a && h !in b;
    assert a == a + {h} - {h} && b == b + {h} - {h};
  }

  /** The rebalancing loop of avl_delete: up the recorded path until a subtree has
      its old height again, or to the pseudo-root. */
  method RebalancePath(pa: seq<Node>, da: seq<Dir>, ghost c0: Ctx, ghost t: Tree)
      returns (ghost c: Ctx, ghost hole: Tree)
    requires pa == Nodes(c0) && da == Dirs(c0) && Zip(c0, RootOf(t), t)
    requires Avl(t) && AvlAround(c0, Height(t) + 1)
    modifies AllNodes(c0, t)`link0, AllNodes(c0, t)`link1, AllNodes(c0, t)`balance
    ensures Zip(c, RootOf(hole), hole) && HeadOf(c) == HeadOf(c0)
    ensures Avl(hole) && (c.Head? || AvlAround(c, Height(hole)))
    ensures Items(Plug(c, hole)) == Items(Plug(c0, t)) && AllNodes(c, hole) == AllNodes(c0, t)
  {
    hide Items, Height, Avl, AvlAround, Repr, ReprCtx, NodeSet, CtxSet, Plug, Zip, HeadOf,
         Nodes, Dirs, AllNodes, Shrink, CanShrink;
    c, hole := c0, t;
    StackTop(c);
    var k := |pa| - 1;
    while k > 0
      invariant 0 <= k == Depth(c) < |pa| && |da| == |pa|
      invariant pa[..k + 1] == Nodes(c) && da[..k + 1] == Dirs(c) && HeadOf(c) == HeadOf(c0)
      invariant Zip(c, RootOf(hole), hole) && Avl(hole) && AvlAround(c, Height(hole) + 1)
      invariant Items(Plug(c, hole)) == Items(Plug(c0, t)) && AllNodes(c, hole) == AllNodes(c0, t)
    {
      StackTop(c);
      DepthZero(c);
      StackTop(c.up);
      var stop;
      ghost var s;
      stop, s := RebalanceUp(pa[k], da[k], pa[k - 1], da[k - 1], c, hole);
      UpItems(c, hole);
      ShrinkAvl(c, hole);
      c, hole := c.up, s;
      if stop {
        return;
      }
      k := k - 1;
    }
    DepthZero(c);
  }
}
