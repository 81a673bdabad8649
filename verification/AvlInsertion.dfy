/** The steps of avl_probe after the place for the new item has been found. */
module AvlInsertion {
  import opened AvlTree
  import opened AvlHeap

  lemma GraftRoot(p: Node?, s: Tree, item: Item, n: Node)
    requires Repr(p, Graft(s, item, n)) && n !in NodeSet(s)
    ensures p == n ==> s == Nil && Graft(s, item, n) == Grow(s, item, n) == Leaf(item, n)
    ensures p != n ==> s.Bin? && p == s.node && p.data == s.item && p in NodeSet(s)
    ensures s.Bin? ==> NodeSet(s.left) <= NodeSet(s) && NodeSet(s.right) <= NodeSet(s)
  {
  }

  /** Moves one balance towards the new leaf and steps down to the child there. */
  method BumpOne(p: Node, d: Dir, item: Item, n: Node, ghost c: Ctx, ghost s: Tree)
      returns (ghost down: Ctx)
    requires s.Bin? && Zip(c, p, Graft(s, item, n)) && d == Toward(item.key, s.item)
    modifies p`balance
    ensures Zip(down, p.Link(d), Graft(Child(d, s), item, n)) && HeadOf(down) == HeadOf(c)
    ensures Plug(down, Grow(Child(d, s), item, n)) == Plug(c, Grow(s, item, n))
  {
    ghost var t := Graft(s, item, n);
    CtxAllocated(c);
    Parts(p, t, d);
    p.balance := p.balance + Lean(d);
    down := Down(c, p, s.item, s.bal + Lean(d), d, Child(Opp(d), s));
  }

  /** The loop of avl_probe that moves the balances from y down to the new node. */
  method Bump(y: Node, n: Node, da: seq<Dir>, item: Item, ghost cy: Ctx, ghost ty: Tree)
    requires Zip(cy, y, Graft(ty, item, n)) && n !in NodeSet(ty)
    requires Descends(ty, item.key, da, Nil)
    modifies NodeSet(ty)`balance
    ensures Zip(cy, y, Grow(ty, item, n))
  {
    hide Items, Height, Avl, Sorted, Repr, ReprCtx, Graft, Grow, NodeSet;
    var p, k := y, 0;
    ghost var c, s := cy, ty;
    GraftRoot(p, s, item, n);
    while p != n
      invariant HeadOf(c) == HeadOf(cy)
      invariant Zip(c, p, Graft(s, item, n)) && n !in NodeSet(s) && NodeSet(s) <= NodeSet(ty)
      invariant Plug(c, Grow(s, item, n)) == Plug(cy, Grow(ty, item, n))
      invariant 0 <= k <= |da| && Descends(s, item.key, da[k..], Nil)
      decreases s
    {
      GraftRoot(p, s, item, n);
      var d := da[k];
      c := BumpOne(p, d, item, n, c, s);
      assert da[k..][1..] == da[k + 1..];
      s := Child(d, s);
      p := p.Link(d);
      k := k + 1;
    }
    GraftRoot(p, s, item, n);
    BumpDone(c, cy, n, y, ty, item);
  }

  lemma BumpDone(c: Ctx, cy: Ctx, n: Node, y: Node, ty: Tree, item: Item)
    requires Zip(c, n, Leaf(item, n)) && HeadOf(c) == HeadOf(cy)
    requires Plug(c, Leaf(item, n)) == Plug(cy, Grow(ty, item, n))
    requires ty.Bin? ==> y == ty.node
    requires ty == Nil ==> y == n
    ensures Zip(cy, y, Grow(ty, item, n))
  {
    hide Zip, Repr, ReprCtx, Plug, NodeSet, CtxSet;
    ZipMove(c, n, Leaf(item, n), cy, Grow(ty, item, n));
  }

  /** Whether the subtree at y, one leaf richer, fits its surroundings as it is. */
  lemma FitsUnrotated(cy: Ctx, ty: Tree, da: seq<Dir>, item: Item, n: Node)
    requires ty.Bin? && Avl(ty) && AvlAround(cy, Height(ty)) && Descends(ty, item.key, da, Nil)
    requires cy.Head? || ty.bal != 0
    requires -1 <= Grow(ty, item, n).bal <= 1
    ensures Avl(Grow(ty, item, n)) && AvlAround(cy, Height(Grow(ty, item, n)))
  {
    GrowTop(ty, da, item, n);
  }

  lemma YParts(cy: Ctx, y: Node, g: Tree)
    requires Zip(cy, y, g) && g.Bin?
    ensures y == g.node && y.balance == g.bal && ReprCtx(cy, y) && Repr(y, g)
    ensures CtxSet(cy) !! NodeSet(g)
  {
  }

  /** Comparing with link 0 finds the link that holds y. */
  lemma OtherLink(c: Ctx, y: Node, g: Tree)
    requires ReprCtx(c, y) && y in NodeSet(g) && CtxSet(c) !! NodeSet(g)
    ensures HoleDir(c) == if y != HoleNode(c).link0 then Right else Left
  {
    if c.Down? && c.dir == Right && c.other.Bin? {
      assert c.node.link0 == c.other.node;
    }
  }

  /** The last part of avl_probe: at most one rotation, at y. */
  method RebalanceAt(y: Node, z: Node, da: seq<Dir>, ghost item: Item, ghost n: Node,
                            ghost cy: Ctx, ghost ty: Tree)
      returns (rotated: bool, ghost t: Tree)
    requires Zip(cy, y, Grow(ty, item, n)) && z == HoleNode(cy)
    requires ty.Bin? && Avl(ty) && AvlAround(cy, Height(ty)) && Descends(ty, item.key, da, Nil)
    requires cy.Head? || ty.bal != 0
    modifies z`link0, z`link1
    modifies NodeSet(Grow(ty, item, n))`link0, NodeSet(Grow(ty, item, n))`link1, NodeSet(Grow(ty, item, n))`balance
    ensures Zip(cy, RootOf(t), t) && Avl(t) && AvlAround(cy, Height(t))
    ensures Items(t) == Items(Grow(ty, item, n)) && NodeSet(t) == NodeSet(Grow(ty, item, n))
    ensures !rotated ==> t == Grow(ty, item, n)
    ensures rotated ==> Rotation(Grow(ty, item, n), t)
  {
    hide Items, Height, Avl, AvlAround, Descends, Grow, Repr, ReprCtx, NodeSet, CtxSet, Single, Double;
    ghost var g := Grow(ty, item, n);
    GrowTop(ty, da, item, n);
    YParts(cy, y, g);
    CtxAllocated(cy);
    var d := if y.balance == -2 then Left else Right;
    if y.balance != -2 && y.balance != 2 {
      FitsUnrotated(cy, ty, da, item, n);
      return false, g;
    }
    assert LeansTwo(d, g);
    HeavyChild(d, g);
    Parts(y, g, d);
    Parts(y.Link(d), Child(d, g), d);
    var w;
    if y.Link(d).balance == Lean(d) {
      SingleIsAvl(d, g);
      SingleItems(d, g);
      w := RotateSingle(y, d, g);
      t := Single(d, g);
    } else {
      DoubleIsAvl(d, g);
      DoubleItems(d, g);
      w := RotateDouble(y, d, g);
      t := Double(d, g);
    }
    assert ReprCtx(cy, y);
    OtherLink(cy, y, g);
    Relink(z, if y != z.link0 then Right else Left, w, cy, y, t);
    RootIs(w, t);
    rotated := true;
    assert Turned(d, g, t);
  }

  lemma FoundAt(c: Ctx, p: Node, t: Tree)
    requires Zip(c, p, t)
    ensures p in NodeSet(Plug(c, t)) && HasKey(Items(Plug(c, t)), p.data.key)
  {
    PlugItems(c, t);
    var i := |Pre(c)| + |Items(t.left)|;
    assert Items(Plug(c, t))[i] == t.item;
    ZipUp(c, p, t);
    PlugNodes(c, t);
    HeadInside(c);
  }

  lemma LeafIs(n: Node, item: Item)
    requires n.data == item && n.balance == 0 && n.link0 == null && n.link1 == null
    ensures Repr(n, Leaf(item, n)) && NodeSet(Leaf(item, n)) == {n} && RootOf(Leaf(item, n)) == n
  {
  }

  lemma EmptyGrown(cy: Ctx, ty: Tree, item: Item, n: Node)
    requires cy.Head? && ty == Nil
    ensures Grow(ty, item, n) == Graft(ty, item, n) == Leaf(item, n)
    ensures Avl(Leaf(item, n)) && AvlAround(cy, Height(Leaf(item, n)))
    ensures NodeSet(Leaf(item, n)) == NodeSet(ty) + {n}
  {
  }

  /** Everything avl_probe does once the new node is linked in. */
  method Settle(n: Node, y: Node?, z: Node, da: seq<Dir>, item: Item,
                       ghost c: Ctx, ghost cy: Ctx, ghost ty: Tree)
      returns (rotated: bool, ghost grown: Tree)
    requires Zip(c, n, Leaf(item, n)) && HeadOf(c) == HeadOf(cy)
    requires Plug(c, Leaf(item, n)) == Plug(cy, Graft(ty, item, n))
    requires y == RootOf(ty) && z == HoleNode(cy) && n !in NodeSet(ty)
    requires Avl(ty) && AvlAround(cy, Height(ty)) && Descends(ty, item.key, da, Nil)
    requires cy.Head? || (ty.Bin? && ty.bal != 0)
    modifies CtxSet(cy)`link0, CtxSet(cy)`link1, n`link0, n`link1, n`balance
    modifies NodeSet(ty)`link0, NodeSet(ty)`link1, NodeSet(ty)`balance
    ensures Zip(cy, RootOf(grown), grown) && Avl(grown) && AvlAround(cy, Height(grown))
    ensures Items(grown) == Items(Grow(ty, item, n)) && NodeSet(grown) == NodeSet(ty) + {n}
    ensures !rotated ==> grown == Grow(ty, item, n)
    ensures rotated ==> Rotation(Grow(ty, item, n), grown)
  {
    hide Items, Height, Avl, AvlAround, Descends, Grow, Graft, Repr, ReprCtx, NodeSet, CtxSet, Plug, Rotation;
    ZipMove(c, n, Leaf(item, n), cy, Graft(ty, item, n));
    if y == null {
      EmptyGrown(cy, ty, item, n);
      return false, Leaf(item, n);
    }
    GrowItems(ty, item, n);
    HoleNodes(cy, ty);
    GraftRootIs(ty, item, n);
    Bump(y, n, da, item, cy, ty);
    rotated, grown := RebalanceAt(y, z, da, item, n, cy, ty);
  }

  lemma GraftRootIs(ty: Tree, item: Item, n: Node)
    requires ty.Bin?
    ensures RootOf(Graft(ty, item, n)) == ty.node
  {
  }

  /** Which nodes the two places of the search are made of. */
  lemma PlaceNodes(c: Ctx, p: Node?, t: Tree, h: Node)
    requires Zip(c, p, t) && HeadOf(c) == h
    ensures h !in NodeSet(Plug(c, t)) && NodeSet(t) <= NodeSet(Plug(c, t))
    ensures CtxSet(c) == NodeSet(Plug(c, t)) - NodeSet(t) + {h}
    ensures HoleNode(c) in CtxSet(c)
    ensures RootOf(t) == p && Repr(p, t) && ReprCtx(c, p) && NodeSet(t) !! CtxSet(c)
  {
    ZipUp(c, p, t);
    PlugNodes(c, t);
    HeadInside(c);
  }

  lemma GrownNodes(cy: Ctx, ty: Tree, grown: Tree, n: Node)
    requires NodeSet(grown) == NodeSet(ty) + {n} && n != HeadOf(cy)
    requires Zip(cy, RootOf(grown), grown) && HeadOf(cy) !in NodeSet(Plug(cy, ty))
    ensures Zip(Head(HeadOf(cy)), HeadOf(cy).link0, Plug(cy, grown))
    ensures NodeSet(Plug(cy, grown)) == NodeSet(Plug(cy, ty)) + {n}
  {
    ZipUp(cy, RootOf(grown), grown);
    PlugNodes(cy, ty);
    PlugNodes(cy, grown);
    var h, a, b := HeadOf(cy), NodeSet(Plug(cy, grown)), NodeSet(Plug(cy, ty)) + {n};
    assert a + {h} == b + {h} && h !in a && h !in b;
    assert a == a + {h} - {h} && b == b + {h} - {h};
  }
}
