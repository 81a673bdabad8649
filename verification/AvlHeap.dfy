/** Linked nodes that realise the values of AvlTree: a pointer that holds a tree, a
    path of nodes around a pointer, and the two rotations done by relinking. */
module AvlHeap {
  import opened AvlTree

  /** Pointer `p` is the root of tree `t`; no node occurs twice. */
  ghost predicate Repr(p: Node?, t: Tree)
    reads NodeSet(t)
  {
    match t
    case Nil => p == null
    case Bin(l, n, it, b, r) =>
      && p == n && n.data == it && n.balance == b
      && n !in NodeSet(l) && n !in NodeSet(r) && NodeSet(l) !! NodeSet(r)
      && Repr(n.link0, l) && Repr(n.link1, r)
  }

  /** A node of the tree holds one of its items. */
  lemma {:induction false} NodeItem(t: Tree, p: Node?, n: Node)
    requires Repr(p, t) && n in NodeSet(t)
    ensures n.data in Items(t)
  {
    if t.Bin? {
      if n in NodeSet(t.left) {
        NodeItem(t.left, p.link0, n);
      } else if n in NodeSet(t.right) {
        NodeItem(t.right, p.link1, n);
      }
    }
  }

  /** The nodes of `c` are linked as `c` says, with `p` in the hole. */
  ghost predicate ReprCtx(c: Ctx, p: Node?)
    reads CtxSet(c)
  {
    match c
    case Head(h) => h.link0 == p
    case Down(up, n, it, b, d, o) =>
      && n.data == it && n.balance == b && n.Link(d) == p
      && n !in NodeSet(o) && n !in CtxSet(up) && NodeSet(o) !! CtxSet(up)
      && Repr(n.Link(Opp(d)), o) && ReprCtx(up, n)
  }

  ghost predicate Zip(c: Ctx, p: Node?, t: Tree)
    reads CtxSet(c), NodeSet(t)
  {
    ReprCtx(c, p) && Repr(p, t) && CtxSet(c) !! NodeSet(t)
  }

  ghost function AllNodes(c: Ctx, t: Tree): set<Node> { CtxSet(c) + NodeSet(t) }

  /** The node, and the link in it, that the hole of `c` stands for. */
  ghost function HoleNode(c: Ctx): Node {
    match c
    case Head(h) => h
    case Down(_, n, _, _, _, _) => n
  }

  ghost function HoleDir(c: Ctx): Dir {
    match c
    case Head(_) => Left
    case Down(_, _, _, _, d, _) => d
  }

  lemma {:induction false} PlugNodes(c: Ctx, t: Tree)
    ensures NodeSet(Plug(c, t)) + {HeadOf(c)} == CtxSet(c) + NodeSet(t)
  {
    match c
    case Head(_) =>
    case Down(up, n, it, b, d, o) =>
      PlugNodes(up, Mk(d, t, n, it, b, o));
  }

  /** The nodes around a hole and in it are the nodes of the whole tree. */
  lemma HoleNodes(c: Ctx, t: Tree)
    ensures HoleNode(c) in CtxSet(c)
    ensures CtxSet(c) <= NodeSet(Plug(c, t)) + {HeadOf(c)} && NodeSet(t) <= NodeSet(Plug(c, t)) + {HeadOf(c)}
  {
    PlugNodes(c, t);
  }

  lemma StepUp(c: Ctx, p: Node?, t: Tree)
    requires c.Down? && Zip(c, p, t)
    ensures Zip(c.up, c.node, Mk(c.dir, t, c.node, c.item, c.bal, c.other))
    ensures AllNodes(c.up, Mk(c.dir, t, c.node, c.item, c.bal, c.other)) == AllNodes(c, t)
  {
  }

  lemma StepDown(c: Ctx, t: Tree, d: Dir)
    requires t.Bin? && Zip(c, t.node, t)
    ensures var down := Down(c, t.node, t.item, t.bal, d, Child(Opp(d), t));
            && Zip(down, t.node.Link(d), Child(d, t))
            && AllNodes(down, Child(d, t)) == AllNodes(c, t)
            && Plug(down, Child(d, t)) == Plug(c, t)
  {
    assert Mk(d, Child(d, t), t.node, t.item, t.bal, Child(Opp(d), t)) == t;
  }

  lemma {:induction false} ZipUp(c: Ctx, p: Node?, t: Tree)
    requires Zip(c, p, t)
    ensures Zip(Head(HeadOf(c)), HeadOf(c).link0, Plug(c, t))
  {
    match c
    case Head(_) =>
    case Down(up, n, it, b, d, o) =>
      StepUp(c, p, t);
      ZipUp(up, n, Mk(d, t, n, it, b, o));
  }

  lemma {:induction false} ZipDown(c: Ctx, t: Tree)
    requires Zip(Head(HeadOf(c)), HeadOf(c).link0, Plug(c, t))
    ensures Zip(c, HoleNode(c).Link(HoleDir(c)), t)
  {
    match c
    case Head(_) =>
    case Down(up, n, it, b, d, o) =>
      ZipDown(up, Mk(d, t, n, it, b, o));
  }

  ghost function RootOf(t: Tree): Node? { if t == Nil then null else t.node }

  lemma RootIs(p: Node?, t: Tree)
    requires Repr(p, t)
    ensures p == RootOf(t)
  {
  }

  /** The same linked nodes, looked at from another place on the tree. */
  lemma ZipMove(c: Ctx, p: Node?, t: Tree, c': Ctx, t': Tree)
    requires Zip(c, p, t) && Plug(c, t) == Plug(c', t') && HeadOf(c) == HeadOf(c')
    ensures Zip(c', RootOf(t'), t') && HoleNode(c').Link(HoleDir(c')) == RootOf(t')
  {
    ZipUp(c, p, t);
    ZipDown(c', t');
  }

  lemma NodesAllocated(t: Tree)
    ensures forall n :: n in NodeSet(t) ==> allocated(n)
  {
  }

  lemma CtxAllocated(c: Ctx)
    ensures forall n :: n in CtxSet(c) ==> allocated(n)
  {
    if c.Down? { NodesAllocated(c.other); }
  }

  /** Stores `q` into the link that the hole of `c` stands for. */
  method Relink(z: Node, d: Dir, q: Node?, ghost c: Ctx, ghost p: Node?, ghost t: Tree)
    requires z == HoleNode(c) && d == HoleDir(c)
    requires ReprCtx(c, p) && Repr(q, t) && CtxSet(c) !! NodeSet(t)
    modifies z`link0, z`link1
    ensures Zip(c, q, t)
  {
    assert z in CtxSet(c) && z !in NodeSet(t);
    ghost var other := z.Link(Opp(d));
    NodesAllocated(t);
    CtxAllocated(c);
    assert c.Down? ==> z !in NodeSet(c.other) && Repr(other, c.other);
    assert c.Down? ==> z !in CtxSet(c.up) && ReprCtx(c.up, z);
    z.SetLink(d, q);
  }

  /** What a pointer to a non-empty tree gives, seen from side `d`. */
  lemma Parts(p: Node?, t: Tree, d: Dir)
    requires t.Bin? && Repr(p, t)
    ensures p == t.node && p.data == t.item && p.balance == t.bal
    ensures Repr(p.Link(d), Child(d, t)) && Repr(p.Link(Opp(d)), Child(Opp(d), t))
    ensures p !in NodeSet(Child(d, t)) && p !in NodeSet(Child(Opp(d), t))
    ensures NodeSet(Child(d, t)) !! NodeSet(Child(Opp(d), t))
    ensures NodeSet(t) == NodeSet(Child(d, t)) + {p} + NodeSet(Child(Opp(d), t))
    ensures allocated(NodeSet(t))
  {
    NodesAllocated(t);
  }

  lemma Assemble(d: Dir, near: Tree, n: Node, far: Tree)
    requires Repr(n.Link(d), near) && Repr(n.Link(Opp(d)), far)
    requires n !in NodeSet(near) && n !in NodeSet(far) && NodeSet(near) !! NodeSet(far)
    ensures Repr(n, Mk(d, near, n, n.data, n.balance, far))
    ensures NodeSet(Mk(d, near, n, n.data, n.balance, far)) == NodeSet(near) + {n} + NodeSet(far)
  {
  }

  lemma Assemble3(d: Dir, tn: Tree, x: Node, ta: Tree, w: Node, tb: Tree, y: Node, tf: Tree)
    requires Repr(x.Link(d), tn) && Repr(x.Link(Opp(d)), ta)
    requires Repr(y.Link(d), tb) && Repr(y.Link(Opp(d)), tf)
    requires w.Link(d) == x && w.Link(Opp(d)) == y && x != y && x != w && y != w
    requires {x, y, w} !! NodeSet(tn) !! NodeSet(ta) !! NodeSet(tb) !! NodeSet(tf)
    ensures var s := Mk(d, Mk(d, tn, x, x.data, x.balance, ta), w, w.data, w.balance, Mk(d, tb, y, y.data, y.balance, tf));
            && Repr(w, s)
            && NodeSet(s) == {x, y, w} + NodeSet(tn) + NodeSet(ta) + NodeSet(tb) + NodeSet(tf)
  {
    hide Repr, NodeSet;
    Assemble(d, tn, x, ta);
    Assemble(d, tb, y, tf);
    Assemble(d, Mk(d, tn, x, x.data, x.balance, ta), w, Mk(d, tb, y, y.data, y.balance, tf));
  }

  method RotateSingle(y: Node, d: Dir, ghost t: Tree) returns (w: Node)
    requires t.Bin? && Child(d, t).Bin? && Repr(y, t)
    modifies NodeSet(t)`link0, NodeSet(t)`link1, NodeSet(t)`balance
    ensures Repr(w, Single(d, t)) && NodeSet(Single(d, t)) == NodeSet(t)
  {
    hide Repr, NodeSet, Items, Height, Avl;
    Parts(y, t, d);
    var x := y.Link(d);
    ghost var tx := Child(d, t);
    Parts(x, tx, d);
    ghost var tn, ti, tf := Child(d, tx), Child(Opp(d), tx), Child(Opp(d), t);
    if d == Left {
      y.link0 := x.link1;
      x.link1 := y;
    } else {
      y.link1 := x.link0;
      x.link0 := y;
    }
    if x.balance == 0 {
      x.balance, y.balance := -Lean(d), Lean(d);
    } else {
      x.balance, y.balance := 0, 0;
    }
    w := x;
    assert Repr(y.Link(d), ti) && Repr(y.Link(Opp(d)), tf) && Repr(x.Link(d), tn);
    Assemble(d, ti, y, tf);
    Assemble(d, tn, x, Mk(d, ti, y, y.data, y.balance, tf));
  }

  method RotateDouble(y: Node, d: Dir, ghost t: Tree) returns (w: Node)
    requires t.Bin? && Child(d, t).Bin? && Child(Opp(d), Child(d, t)).Bin? && Repr(y, t)
    requires -1 <= Child(Opp(d), Child(d, t)).bal <= 1
    modifies NodeSet(t)`link0, NodeSet(t)`link1, NodeSet(t)`balance
    ensures Repr(w, Double(d, t)) && NodeSet(Double(d, t)) == NodeSet(t)
  {
    hide Repr, NodeSet, Items, Height, Avl;
    Parts(y, t, d);
    var x := y.Link(d);
    ghost var tx := Child(d, t);
    Parts(x, tx, d);
    ghost var tw := Child(Opp(d), tx);
    w := x.Link(Opp(d));
    Parts(w, tw, d);
    ghost var tn, ta, tb, tf := Child(d, tx), Child(d, tw), Child(Opp(d), tw), Child(Opp(d), t);
    if d == Left {
      x.link1 := w.link0;
      w.link0 := x;
      y.link0 := w.link1;
      w.link1 := y;
    } else {
      x.link0 := w.link1;
      w.link1 := x;
      y.link1 := w.link0;
      w.link0 := y;
    }
    var (xb, yb) :=
      if w.balance == Lean(d) then (0, -Lean(d))
      else if w.balance == 0 then (0, 0)
      else (Lean(d), 0);
    x.balance, y.balance, w.balance := xb, yb, 0;
    assert Repr(x.Link(d), tn) && Repr(x.Link(Opp(d)), ta);
    assert Repr(y.Link(d), tb) && Repr(y.Link(Opp(d)), tf);
    Assemble3(d, tn, x, ta, w, tb, y, tf);
  }
}
