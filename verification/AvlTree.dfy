/** The value a balanced tree stands for: what hangs from a pointer (Tree), what
    surrounds a pointer (Ctx), and the facts about order and balance that the
    pointer code in AvlTable relies on. Nothing in this module touches the heap. */
module AvlTree {

  /** What the table stores. Any comparison function that orders the items can be
      represented by an integer key; `ref` stands for the identity of the item. */
  datatype Item = Item(key: int, ref: nat)

  /** The index into avl_link[]: 0 is Left, 1 is Right. */
  datatype Dir = Left | Right

  function Opp(d: Dir): Dir { if d == Left then Right else Left }

  /** The balance of a node that leans by one to side `d`. */
  function Lean(d: Dir): int { if d == Left then -1 else 1 }

  function Toward(key: int, item: Item): Dir { if key > item.key then Right else Left }

  class Node {
    var link0: Node?
    var link1: Node?
    var data: Item
    var balance: int

    constructor (item: Item)
      ensures link0 == null && link1 == null && data == item && balance == 0
    {
      link0, link1, data, balance := null, null, item, 0;
    }

    function Link(d: Dir): Node?
      reads this
    {
      if d == Left then link0 else link1
    }

    method SetLink(d: Dir, p: Node?)
      modifies `link0, `link1
      ensures Link(d) == p && Link(Opp(d)) == old(Link(Opp(d)))
    {
      if d == Left { link0 := p; } else { link1 := p; }
    }
  }

  datatype Tree = Nil | Bin(left: Tree, node: Node, item: Item, bal: int, right: Tree)

  /** A path from the pseudo-root (the table itself, whose first word is the root
      pointer) down to a hole: the stacks pa[] and da[] with the siblings kept. */
  datatype Ctx = Head(head: Node)
               | Down(up: Ctx, node: Node, item: Item, bal: int, dir: Dir, other: Tree)

  // ----- shape -----

  ghost function Mk(d: Dir, near: Tree, n: Node, item: Item, b: int, far: Tree): Tree {
    if d == Left then Bin(near, n, item, b, far) else Bin(far, n, item, b, near)
  }

  ghost function Child(d: Dir, t: Tree): Tree
    requires t.Bin?
  {
    if d == Left then t.left else t.right
  }

  ghost function Height(t: Tree): nat {
    match t
    case Nil => 0
    case Bin(l, _, _, _, r) => 1 + Max(Height(l), Height(r))
  }

  ghost function Max(a: int, b: int): int { if a < b then b else a }

  ghost function NodeSet(t: Tree): set<Node> {
    match t
    case Nil => {}
    case Bin(l, n, _, _, r) => NodeSet(l) + {n} + NodeSet(r)
  }

  ghost function CtxSet(c: Ctx): set<Node> {
    match c
    case Head(h) => {h}
    case Down(up, n, _, _, _, o) => CtxSet(up) + {n} + NodeSet(o)
  }

  ghost function Items(t: Tree): seq<Item> {
    match t
    case Nil => []
    case Bin(l, _, it, _, r) => Items(l) + [it] + Items(r)
  }

  ghost function Plug(c: Ctx, t: Tree): Tree {
    match c
    case Head(_) => t
    case Down(up, n, it, b, d, o) => Plug(up, Mk(d, t, n, it, b, o))
  }

  ghost function HeadOf(c: Ctx): Node {
    match c
    case Head(h) => h
    case Down(up, _, _, _, _, _) => HeadOf(up)
  }

  lemma HeadInside(c: Ctx)
    ensures HeadOf(c) in CtxSet(c)
  {
  }

  /** The items before and after the hole, in order. */
  ghost function Pre(c: Ctx): seq<Item> {
    match c
    case Head(_) => []
    case Down(up, _, it, _, d, o) => if d == Left then Pre(up) else Pre(up) + Items(o) + [it]
  }

  ghost function Post(c: Ctx): seq<Item> {
    match c
    case Head(_) => []
    case Down(up, _, it, _, d, o) => if d == Left then [it] + Items(o) + Post(up) else Post(up)
  }

  lemma {:induction false} PlugItems(c: Ctx, t: Tree)
    ensures Items(Plug(c, t)) == Pre(c) + Items(t) + Post(c)
  {
    match c
    case Head(_) =>
    case Down(up, n, it, b, d, o) =>
      PlugItems(up, Mk(d, t, n, it, b, o));
  }

  // ----- order -----

  ghost predicate Sorted(s: seq<Item>) {
    forall i, j :: 0 <= i < j < |s| ==> s[i].key < s[j].key
  }

  ghost predicate Below(s: seq<Item>, key: int) {
    forall i :: 0 <= i < |s| ==> s[i].key < key
  }

  ghost predicate Above(s: seq<Item>, key: int) {
    forall i :: 0 <= i < |s| ==> key < s[i].key
  }

  ghost predicate HasKey(s: seq<Item>, key: int) {
    exists i :: 0 <= i < |s| && s[i].key == key
  }

  /** The reference meaning of insertion and removal, on the ordered item list. */
  ghost function InsertSorted(s: seq<Item>, item: Item): seq<Item> {
    if s == [] then [item]
    else if item.key < s[0].key then [item] + s
    else [s[0]] + InsertSorted(s[1..], item)
  }

  ghost function RemoveKey(s: seq<Item>, key: int): seq<Item> {
    if s == [] then []
    else if s[0].key == key then s[1..]
    else [s[0]] + RemoveKey(s[1..], key)
  }

  lemma {:induction false} InsertSortedAt(pre: seq<Item>, post: seq<Item>, item: Item)
    requires Below(pre, item.key) && Above(post, item.key)
    ensures InsertSorted(pre + post, item) == pre + [item] + post
  {
    if pre == [] {
      assert pre + post == post;
      assert post != [] ==> item.key < post[0].key;
    } else {
      assert (pre + post)[1..] == pre[1..] + post;
      assert pre[0].key < item.key;
      InsertSortedAt(pre[1..], post, item);
      assert pre + [item] + post == [pre[0]] + (pre[1..] + [item] + post);
    }
  }

  lemma {:induction false} RemoveKeyAt(pre: seq<Item>, item: Item, post: seq<Item>)
    requires Below(pre, item.key)
    ensures RemoveKey(pre + [item] + post, item.key) == pre + post
  {
    var s := pre + [item] + post;
    if pre == [] {
      assert s[0] == item && s[1..] == post;
      assert pre + post == post;
    } else {
      assert s[0] == pre[0] && s[1..] == pre[1..] + [item] + post;
      assert pre[0].key < item.key;
      RemoveKeyAt(pre[1..], item, post);
      assert pre + post == [pre[0]] + (pre[1..] + post);
    }
  }

  lemma {:induction false} RemoveAbsent(s: seq<Item>, key: int)
    requires !HasKey(s, key)
    ensures RemoveKey(s, key) == s
  {
    if s != [] {
      assert s[0].key != key;
      assert forall i :: 0 <= i < |s[1..]| ==> s[1..][i] == s[i + 1];
      RemoveAbsent(s[1..], key);
    }
  }

  /** A sorted list cut around one element. */
  lemma SortedSplit(a: seq<Item>, it: Item, b: seq<Item>)
    requires Sorted(a + [it] + b)
    ensures Sorted(a) && Sorted(b) && Below(a, it.key) && Above(b, it.key)
  {
    var s := a + [it] + b;
    assert s[|a|] == it;
    assert forall i :: 0 <= i < |a| ==> a[i] == s[i];
    assert forall i :: 0 <= i < |b| ==> b[i] == s[|a| + 1 + i];
  }

  lemma SubBelow(a: seq<Item>, b: seq<Item>, key: int)
    ensures Below(a + b, key) <==> Below(a, key) && Below(b, key)
    ensures Above(a + b, key) <==> Above(a, key) && Above(b, key)
  {
    var s := a + b;
    assert forall i :: 0 <= i < |a| ==> a[i] == s[i];
    assert forall i :: 0 <= i < |b| ==> b[i] == s[|a| + i];
  }

  lemma SubSorted(a: seq<Item>, b: seq<Item>)
    requires Sorted(a + b)
    ensures Sorted(a) && Sorted(b)
  {
    var s := a + b;
    assert forall i :: 0 <= i < |a| ==> a[i] == s[i];
    assert forall i :: 0 <= i < |b| ==> b[i] == s[|a| + i];
  }

  lemma BelowLess(s: seq<Item>, low: int, high: int)
    requires low <= high
    ensures Below(s, low) ==> Below(s, high)
    ensures Above(s, high) ==> Above(s, low)
  {
  }

  /** Comparing with the item at the hole's node tells which side the key is on. */
  lemma Narrow(c: Ctx, t: Tree, key: int)
    requires t.Bin? && Sorted(Items(Plug(c, t)))
    ensures Below(Items(t.left), t.item.key) && Above(Items(t.right), t.item.key)
    ensures Sorted(Items(t.left)) && Sorted(Items(t.right))
    ensures Below(Pre(c), t.item.key) && Above(Post(c), t.item.key)
    ensures key <= t.item.key ==> Above(Post(c), key)
    ensures t.item.key <= key ==> Below(Pre(c), key)
  {
    hide Sorted, Below, Above, Pre, Post, Plug;
    PlugItems(c, t);
    var a, b := Pre(c) + Items(t.left), Items(t.right) + Post(c);
    assert Pre(c) + Items(t) + Post(c) == a + [t.item] + b;
    SortedSplit(a, t.item, b);
    SubBelow(Pre(c), Items(t.left), t.item.key);
    SubBelow(Items(t.right), Post(c), t.item.key);
    SubSorted(Pre(c), Items(t.left));
    SubSorted(Items(t.right), Post(c));
    if key <= t.item.key { BelowLess(Post(c), key, t.item.key); }
    if t.item.key <= key { BelowLess(Pre(c), t.item.key, key); }
  }

  // ----- balance -----

  ghost predicate Avl(t: Tree) {
    match t
    case Nil => true
    case Bin(l, _, _, b, r) => Avl(l) && Avl(r) && b == Height(r) - Height(l) && -1 <= b <= 1
  }

  /** The surroundings of a hole are balanced when the hole is filled to height h. */
  ghost predicate AvlAround(c: Ctx, h: nat) {
    match c
    case Head(_) => true
    case Down(up, _, _, b, d, o) =>
      Avl(o) && -1 <= b <= 1 && b == (if d == Left then Height(o) - h else h - Height(o)) && AvlAround(up, 1 + Max(h, Height(o)))
  }

  lemma MkAvl(d: Dir, t: Tree, n: Node, it: Item, b: int, o: Tree)
    ensures Height(Mk(d, t, n, it, b, o)) == 1 + Max(Height(t), Height(o))
    ensures Avl(Mk(d, t, n, it, b, o)) <==>
              && Avl(t) && Avl(o) && -1 <= b <= 1
              && b == (if d == Left then Height(o) - Height(t) else Height(t) - Height(o))
  {
  }

  lemma {:induction false} PlugAvl(c: Ctx, t: Tree)
    ensures Avl(Plug(c, t)) <==> Avl(t) && AvlAround(c, Height(t))
  {
    hide Avl, Height, Mk, Max;
    match c
    case Head(_) =>
    case Down(up, n, it, b, d, o) =>
      var s := Mk(d, t, n, it, b, o);
      PlugAvl(up, s);
      MkAvl(d, t, n, it, b, o);
  }

  // ----- rotations, with the balances the code stores -----

  /** y leans by two to side d and its child x = link[d] does not lean the other way. */
  ghost function Single(d: Dir, t: Tree): Tree
    requires t.Bin? && Child(d, t).Bin?
  {
    var x := Child(d, t);
    var (xb, yb) := if x.bal == 0 then (-Lean(d), Lean(d)) else (0, 0);
    Mk(d, Child(d, x), x.node, x.item, xb, Mk(d, Child(Opp(d), x), t.node, t.item, yb, Child(Opp(d), t)))
  }

  /** y leans by two to side d and x = link[d] leans by one the other way. */
  ghost function Double(d: Dir, t: Tree): Tree
    requires t.Bin? && Child(d, t).Bin? && Child(Opp(d), Child(d, t)).Bin?
  {
    var x := Child(d, t);
    var w := Child(Opp(d), x);
    var xb := if w.bal == -Lean(d) then Lean(d) else 0;
    var yb := if w.bal == Lean(d) then -Lean(d) else 0;
    Mk(d, Mk(d, Child(d, x), x.node, x.item, xb, Child(d, w)),
       w.node, w.item, 0,
       Mk(d, Child(Opp(d), w), t.node, t.item, yb, Child(Opp(d), t)))
  }

  /** Out of balance by two towards d, everything below in balance. */
  ghost predicate LeansTwo(d: Dir, t: Tree) {
    && t.Bin? && Avl(t.left) && Avl(t.right)
    && t.bal == 2 * Lean(d) == Height(t.right) - Height(t.left)
  }

  lemma SingleIsAvl(d: Dir, t: Tree)
    requires LeansTwo(d, t) && Child(d, t).Bin? && Child(d, t).bal != -Lean(d)
    ensures Avl(Single(d, t))
    ensures Height(Single(d, t)) == if Child(d, t).bal == 0 then Height(t) else Height(t) - 1
  {
    var x := Child(d, t);
    assert Avl(x.left) && Avl(x.right);
    var s := Single(d, t);
    var y := Child(Opp(d), s);
    assert y.Bin? && Avl(y);
  }

  lemma MkItems(d: Dir, t: Tree, n: Node, it: Item, b: int, o: Tree)
    ensures Items(Mk(d, t, n, it, b, o))
         == if d == Left then Items(t) + [it] + Items(o) else Items(o) + [it] + Items(t)
  {
  }

  lemma SingleItems(d: Dir, t: Tree)
    requires t.Bin? && Child(d, t).Bin?
    ensures Items(Single(d, t)) == Items(t)
  {
    hide Items;
    var x := Child(d, t);
    var y := Child(Opp(d), Single(d, t));
    MkItems(d, x, t.node, t.item, t.bal, Child(Opp(d), t));
    MkItems(d, Child(d, x), x.node, x.item, x.bal, Child(Opp(d), x));
    MkItems(d, Child(Opp(d), x), t.node, t.item, y.bal, Child(Opp(d), t));
    MkItems(d, Child(d, x), x.node, x.item, Single(d, t).bal, y);
  }

  lemma DoubleIsAvl(d: Dir, t: Tree)
    requires LeansTwo(d, t) && Child(d, t).Bin? && Child(d, t).bal == -Lean(d)
    requires Child(Opp(d), Child(d, t)).Bin?
    ensures Avl(Double(d, t))
    ensures Height(Double(d, t)) == Height(t) - 1
  {
    hide Items;
    var x := Child(d, t);
    var w := Child(Opp(d), x);
    assert Avl(x.left) && Avl(x.right);
    assert Avl(w.left) && Avl(w.right);
    var s := Double(d, t);
    assert Avl(Child(d, s));
    assert Avl(Child(Opp(d), s));
  }

  /** The same seven parts, grouped in two ways. */
  lemma RegroupSeven(a: seq<Item>, x: Item, b: seq<Item>, w: Item, c: seq<Item>, t: Item, e: seq<Item>)
    ensures a + [x] + (b + [w] + c) + [t] + e == a + [x] + b + [w] + (c + [t] + e)
    ensures e + [t] + (c + [w] + b + [x] + a) == e + [t] + c + [w] + (b + [x] + a)
  {
  }

  lemma DoubleItems(d: Dir, t: Tree)
    requires t.Bin? && Child(d, t).Bin? && Child(Opp(d), Child(d, t)).Bin?
    ensures Items(Double(d, t)) == Items(t)
  {
    hide Items;
    var x := Child(d, t);
    var w := Child(Opp(d), x);
    var s := Double(d, t);
    var (sx, sy) := (Child(d, s), Child(Opp(d), s));
    MkItems(d, x, t.node, t.item, t.bal, Child(Opp(d), t));
    MkItems(d, Child(d, x), x.node, x.item, x.bal, w);
    MkItems(d, Child(d, w), w.node, w.item, w.bal, Child(Opp(d), w));
    MkItems(d, Child(d, x), x.node, x.item, sx.bal, Child(d, w));
    MkItems(d, Child(Opp(d), w), t.node, t.item, sy.bal, Child(Opp(d), t));
    MkItems(d, sx, w.node, w.item, 0, sy);
    RegroupSeven(Items(Child(d, x)), x.item, Items(Child(d, w)), w.item, Items(Child(Opp(d), w)), t.item,
            Items(Child(Opp(d), t)));
  }

  /** The child on the heavy side, and the inner grandchild when it is needed, exist. */
  lemma HeavyChild(d: Dir, t: Tree)
    requires LeansTwo(d, t)
    ensures Child(d, t).Bin? && -1 <= Child(d, t).bal <= 1
    ensures var w := Child(Opp(d), Child(d, t));
            (Child(d, t).bal == -Lean(d) ==> w.Bin?) && (w.Bin? ==> -1 <= w.bal <= 1)
  {
    var x := Child(d, t);
    assert Height(x) >= 2;
    var w := Child(Opp(d), x);
    assert Avl(x) && Avl(w);
    if x.bal == -Lean(d) {
      assert Height(w) >= 1;
    }
  }

  // ----- growing by one leaf -----

  ghost function Leaf(item: Item, n: Node): Tree { Bin(Nil, n, item, 0, Nil) }

  /** The tree right after the new node has been linked in, balances untouched. */
  ghost function Graft(t: Tree, item: Item, n: Node): Tree {
    if t == Nil then Leaf(item, n) else
    var d := Toward(item.key, t.item);
    Mk(d, Graft(Child(d, t), item, n), t.node, t.item, t.bal, Child(Opp(d), t))
  }

  /** The same with every balance on the path moved towards the new node. */
  ghost function Grow(t: Tree, item: Item, n: Node): Tree {
    if t == Nil then Leaf(item, n) else
    var d := Toward(item.key, t.item);
    Mk(d, Grow(Child(d, t), item, n), t.node, t.item, t.bal + Lean(d), Child(Opp(d), t))
  }

  /** Following the cached directions `da` from `s` leads to `t`, and every node
      passed after the first one is in perfect balance. */
  ghost predicate Descends(s: Tree, key: int, da: seq<Dir>, t: Tree) {
    if |da| == 0 then s == t
    else
      && s.Bin? && key != s.item.key && da[0] == Toward(key, s.item)
      && (|da| > 1 ==> Child(da[0], s).Bin? && Child(da[0], s).bal == 0)
      && Descends(Child(da[0], s), key, da[1..], t)
  }

  lemma DescendHere(s: Tree, key: int)
    ensures Descends(s, key, [], s)
  {
  }

  lemma {:induction false} DescendFurther(s: Tree, key: int, da: seq<Dir>, t: Tree)
    requires Descends(s, key, da, t) && t.Bin? && key != t.item.key
    requires |da| > 0 ==> t.bal == 0
    ensures Descends(s, key, da + [Toward(key, t.item)], Child(Toward(key, t.item), t))
  {
    var more := da + [Toward(key, t.item)];
    if |da| == 0 {
      assert more[1..] == [];
    } else {
      DescendFurther(Child(da[0], s), key, da[1..], t);
      assert more[1..] == da[1..] + [Toward(key, t.item)];
    }
  }

  /** Below a perfectly balanced path the insertion raises the height by one. */
  lemma {:induction false} GrowTaller(t: Tree, da: seq<Dir>, item: Item, n: Node)
    requires Avl(t) && Descends(t, item.key, da, Nil) && (t.Bin? ==> t.bal == 0)
    ensures Avl(Grow(t, item, n)) && Height(Grow(t, item, n)) == Height(t) + 1
    decreases t
  {
    if t.Bin? {
      GrowTaller(Child(da[0], t), da[1..], item, n);
    }
  }

  lemma {:induction false} GrowItems(t: Tree, item: Item, n: Node)
    ensures Items(Grow(t, item, n)) == Items(Graft(t, item, n))
    ensures NodeSet(Grow(t, item, n)) == NodeSet(Graft(t, item, n)) == NodeSet(t) + {n}
  {
    if t.Bin? {
      GrowItems(Child(Toward(item.key, t.item), t), item, n);
    }
  }

  /** The top node y that the insertion updates: its new balance decides. */
  lemma GrowTop(t: Tree, da: seq<Dir>, item: Item, n: Node)
    requires t.Bin? && Avl(t) && Descends(t, item.key, da, Nil)
    ensures var g := Grow(t, item, n); var d := Toward(item.key, t.item);
            && g.Bin? && g.node == t.node && g.bal == t.bal + Lean(d)
            && (-1 <= g.bal <= 1 ==> Avl(g))
            && (g.bal == 0 ==> Height(g) == Height(t))
            && (g.bal == 2 * Lean(d) ==> LeansTwo(d, g) && Child(d, g).bal != 0 && Height(g) == Height(t) + 1)
            && (g.bal == 2 * Lean(d) || -1 <= g.bal <= 1)
  {
    var d := Toward(item.key, t.item);
    GrowTaller(Child(d, t), da[1..], item, n);
    if t.bal == Lean(d) {
      var x := Child(d, t);
      assert Height(x) >= 1 && x.Bin?;
      assert da[1..] != [];
    }
  }

  /** The key's search path runs through the hole. */
  ghost predicate OnPath(c: Ctx, key: int) {
    match c
    case Head(_) => true
    case Down(up, _, it, _, d, _) => key != it.key && d == Toward(key, it) && OnPath(up, key)
  }

  lemma {:induction false} PlugGraft(c: Ctx, t: Tree, item: Item, n: Node)
    requires OnPath(c, item.key)
    ensures Graft(Plug(c, t), item, n) == Plug(c, Graft(t, item, n))
  {
    match c
    case Head(_) =>
    case Down(up, m, it, b, d, o) =>
      PlugGraft(up, Mk(d, t, m, it, b, o), item, n);
  }

  lemma {:induction false} OnPathBounds(c: Ctx, t: Tree, key: int)
    requires OnPath(c, key) && Sorted(Items(Plug(c, t)))
    ensures Below(Pre(c), key) && Above(Post(c), key)
  {
    match c
    case Head(_) =>
    case Down(up, n, it, b, d, o) =>
      var s := Mk(d, t, n, it, b, o);
      OnPathBounds(up, s, key);
      Narrow(up, s, key);
      if d == Left {
        BelowLess(Items(o), key, it.key);
        SubBelow([it], Items(o), key);
        SubBelow([it] + Items(o), Post(up), key);
      } else {
        BelowLess(Items(o), it.key, key);
        SubBelow(Pre(up), Items(o), key);
        SubBelow(Pre(up) + Items(o), [it], key);
      }
  }

  lemma SortedJoin(a: seq<Item>, it: Item, b: seq<Item>)
    requires Sorted(a + b) && Below(a, it.key) && Above(b, it.key)
    ensures Sorted(a + [it] + b)
  {
    var s, u := a + [it] + b, a + b;
    assert forall i :: 0 <= i < |a| ==> s[i] == a[i] == u[i];
    assert forall i :: |a| < i < |s| ==> s[i] == b[i - |a| - 1] == u[i - 1];
  }

  lemma SortedCut(a: seq<Item>, it: Item, b: seq<Item>)
    requires Sorted(a + [it] + b)
    ensures Sorted(a + b)
  {
    var s, u := a + [it] + b, a + b;
    assert forall i :: 0 <= i < |a| ==> s[i] == u[i];
    assert forall i :: |a| <= i < |u| ==> s[i + 1] == u[i];
  }

  lemma NotBetween(pre: seq<Item>, post: seq<Item>, key: int)
    requires Below(pre, key) && Above(post, key)
    ensures !HasKey(pre + post, key)
  {
    var s := pre + post;
    assert forall i :: 0 <= i < |s| ==> s[i] == if i < |pre| then pre[i] else post[i - |pre|];
  }

  /** Filling an empty place on the key's path with the item is sorted insertion. */
  lemma GraftInserts(c: Ctx, item: Item, n: Node)
    requires OnPath(c, item.key) && Sorted(Items(Plug(c, Nil)))
    ensures Items(Plug(c, Leaf(item, n))) == InsertSorted(Items(Plug(c, Nil)), item)
    ensures Sorted(Items(Plug(c, Leaf(item, n))))
    ensures !HasKey(Items(Plug(c, Nil)), item.key)
  {
    hide Sorted, Below, Above, HasKey, Pre, Post, Plug, OnPath, InsertSorted;
    PlugItems(c, Nil);
    PlugItems(c, Leaf(item, n));
    OnPathBounds(c, Nil, item.key);
    assert Items(Leaf(item, n)) == [item];
    assert Pre(c) + [] + Post(c) == Pre(c) + Post(c);
    InsertSortedAt(Pre(c), Post(c), item);
    SortedJoin(Pre(c), item, Post(c));
    NotBetween(Pre(c), Post(c), item.key);
  }

  lemma {:induction false} InsertSortedSize(s: seq<Item>, item: Item)
    ensures |InsertSorted(s, item)| == |s| + 1
  {
    if s != [] {
      InsertSortedSize(s[1..], item);
    }
  }

  /** The search of avl_probe ended at an empty place below y = root of `ty`. */
  ghost predicate PlaceFound(tree: Tree, c: Ctx, cy: Ctx, ty: Tree, key: int, da: seq<Dir>) {
    && Plug(c, Nil) == tree && OnPath(c, key)
    && Plug(cy, ty) == tree && OnPath(cy, key)
    && Descends(ty, key, da, Nil)
    && (cy.Head? || (ty.Bin? && ty.bal != 0))
  }

  /** Linking the leaf in at the empty place grafts it below y. */
  lemma PlaceGrafts(tree: Tree, c: Ctx, cy: Ctx, ty: Tree, da: seq<Dir>, item: Item, n: Node)
    requires PlaceFound(tree, c, cy, ty, item.key, da) && Avl(tree) && Sorted(Items(tree))
    ensures Plug(c, Leaf(item, n)) == Plug(cy, Graft(ty, item, n))
    ensures Avl(ty) && AvlAround(cy, Height(ty)) && !HasKey(Items(tree), item.key)
  {
    hide Avl, AvlAround, Sorted, HasKey, Items;
    PlugGraft(c, Nil, item, n);
    PlugGraft(cy, ty, item, n);
    PlugAvl(cy, ty);
    GraftInserts(c, item, n);
  }

  /** Any balanced rearrangement of the grown subtree completes the insertion. */
  lemma PlaceResult(tree: Tree, c: Ctx, cy: Ctx, ty: Tree, da: seq<Dir>, item: Item, n: Node, t: Tree)
    requires PlaceFound(tree, c, cy, ty, item.key, da) && Avl(tree) && Sorted(Items(tree))
    requires Avl(t) && AvlAround(cy, Height(t)) && Items(t) == Items(Grow(ty, item, n))
    ensures Avl(Plug(cy, t)) && Sorted(Items(Plug(cy, t)))
    ensures Items(Plug(cy, t)) == InsertSorted(Items(tree), item)
    ensures |Items(Plug(cy, t))| == |Items(tree)| + 1
    ensures t == Grow(ty, item, n) ==> SamePaths(tree, Plug(cy, t))
  {
    hide Avl, AvlAround, Sorted, HasKey, Items, SamePaths, InsertSorted;
    PlaceGrafts(tree, c, cy, ty, da, item, n);
    PlugAvl(cy, t);
    GraftInserts(c, item, n);
    GrowItems(ty, item, n);
    PlugItems(cy, t);
    PlugItems(cy, Graft(ty, item, n));
    InsertSortedSize(Items(tree), item);
    GrowPaths(ty, item, n);
    PlugPaths(cy, ty, Grow(ty, item, n));
  }

  // ----- shrinking by one level -----

  /** What the rotations of one turn dereference is there. */
  ghost predicate CanShrink(c: Ctx) {
    && c.Down?
    && (c.bal == -Lean(c.dir) ==> c.other.Bin?)
    && (c.bal == -Lean(c.dir) && c.other.bal == Lean(c.dir) ==> Child(c.dir, c.other).Bin?)
  }

  /** One turn of the rebalancing loop of avl_delete: the subtree in the hole has
      lost one level. Returns the new subtree one step up, and whether to stop. */
  ghost function Shrink(c: Ctx, t: Tree): (Tree, bool)
    requires CanShrink(c)
  {
    var b := c.bal - Lean(c.dir);
    var e := Opp(c.dir);
    var s := Mk(c.dir, t, c.node, c.item, b, c.other);
    if b == Lean(e) then (s, true)
    else if b == 2 * Lean(e) then
      if c.other.bal == -Lean(e) then (Double(e, s), false)
      else (Single(e, s), c.other.bal == 0)
    else (s, false)
  }

  /** A node that already leaned away from the hole has what the rotations need. */
  lemma ShrinkDefined(c: Ctx, h: nat)
    requires c.Down? && h >= 1 && AvlAround(c, h)
    ensures CanShrink(c)
  {
    if c.bal == -Lean(c.dir) {
      assert Height(c.other) >= 2;
      if c.other.bal == Lean(c.dir) {
        assert Height(Child(c.dir, c.other)) >= 1;
      }
    }
  }

  lemma ShrinkItems(c: Ctx, t: Tree)
    requires CanShrink(c)
    ensures Items(Shrink(c, t).0) == Items(Mk(c.dir, t, c.node, c.item, c.bal, c.other))
  {
    var b := c.bal - Lean(c.dir);
    var e := Opp(c.dir);
    var s := Mk(c.dir, t, c.node, c.item, b, c.other);
    if b == 2 * Lean(e) {
      if c.other.bal == -Lean(e) { DoubleItems(e, s); } else { SingleItems(e, s); }
    }
  }

  /** Stopping early is right exactly because the old height is back. */
  lemma ShrinkAvl(c: Ctx, t: Tree)
    requires CanShrink(c) && Avl(t) && AvlAround(c, Height(t) + 1)
    ensures Avl(Shrink(c, t).0)
    ensures AvlAround(c.up, if Shrink(c, t).1 then Height(Shrink(c, t).0) else Height(Shrink(c, t).0) + 1)
  {
    hide Items, Avl, Height, Single, Double;
    var b := c.bal - Lean(c.dir);
    var e := Opp(c.dir);
    var s := Mk(c.dir, t, c.node, c.item, b, c.other);
    MkAvl(c.dir, t, c.node, c.item, b, c.other);
    if b == 2 * Lean(e) {
      assert Child(e, s) == c.other;
      assert LeansTwo(e, s);
      if c.other.bal == -Lean(e) { DoubleIsAvl(e, s); } else { SingleIsAvl(e, s); }
    }
  }

  // ----- where a traverser's stack points -----

  ghost predicate Has(t: Tree, key: int) {
    t.Bin? && (key == t.item.key || Has(Child(Toward(key, t.item), t), key))
  }

  /** The nodes strictly above the one that holds the key. */
  ghost function PathTo(t: Tree, key: int): seq<Node> {
    if t == Nil || key == t.item.key then []
    else [t.node] + PathTo(Child(Toward(key, t.item), t), key)
  }

  /** Every key is reached over the same nodes in both trees. */
  ghost predicate SamePaths(t: Tree, u: Tree) {
    forall k :: Has(t, k) ==> Has(u, k) && PathTo(u, k) == PathTo(t, k)
  }

  lemma {:induction false} GrowPaths(t: Tree, item: Item, n: Node)
    ensures SamePaths(t, Grow(t, item, n))
  {
    if t.Bin? {
      GrowPaths(Child(Toward(item.key, t.item), t), item, n);
    }
  }

  lemma {:induction false} PlugPaths(c: Ctx, t: Tree, u: Tree)
    requires SamePaths(t, u)
    ensures SamePaths(Plug(c, t), Plug(c, u))
  {
    match c
    case Head(_) =>
    case Down(up, n, it, b, d, o) =>
      var s, v := Mk(d, t, n, it, b, o), Mk(d, u, n, it, b, o);
      assert SamePaths(s, v);
      PlugPaths(up, s, v);
  }

  // ----- a rotation always moves some traverser's stack -----

  /** t is g after the rotation at its top. */
  ghost predicate Rotation(g: Tree, t: Tree) {
    exists d: Dir :: Turned(d, g, t)
  }

  ghost predicate Turned(d: Dir, g: Tree, t: Tree) {
    && g.Bin? && Child(d, g).Bin?
    && (t == Single(d, g) || (Child(Opp(d), Child(d, g)).Bin? && t == Double(d, g)))
  }

  lemma TurnedTop(d: Dir, g: Tree, t: Tree)
    requires Turned(d, g, t) && Sorted(Items(g))
    ensures t.Bin? && t.item.key != g.item.key
  {
    hide Sorted;
    var x := Child(d, g);
    MkItems(d, x, g.node, g.item, g.bal, Child(Opp(d), g));
    TopIn(x);
    if t != Single(d, g) {
      MkItems(d, Child(d, x), x.node, x.item, x.bal, Child(Opp(d), x));
      TopIn(Child(Opp(d), x));
      assert t.item in Items(x);
    }
    assert t.item in Items(x);
    SideKeys(d, Items(x), g.item, Items(Child(Opp(d), g)), t.item);
  }

  lemma TopIn(t: Tree)
    requires t.Bin?
    ensures t.item in Items(t)
  {
    assert Items(t)[|Items(t.left)|] == t.item;
  }

  lemma SideKeys(d: Dir, a: seq<Item>, it: Item, b: seq<Item>, x: Item)
    requires Sorted(if d == Left then a + [it] + b else b + [it] + a) && x in a
    ensures x.key != it.key && d == Toward(x.key, it)
  {
    var i :| 0 <= i < |a| && a[i] == x;
    if d == Left {
      var s := a + [it] + b;
      assert s[i] == x && s[|a|] == it;
    } else {
      var s := b + [it] + a;
      assert s[|b| + 1 + i] == x && s[|b|] == it;
    }
  }

  /** A key of the subtree in the hole is searched for through the hole. */
  lemma {:induction false} HoleOnPath(c: Ctx, t: Tree, x: Item)
    requires Sorted(Items(Plug(c, t))) && x in Items(t)
    ensures OnPath(c, x.key)
  {
    hide Items, Sorted;
    match c
    case Head(_) =>
    case Down(up, n, it, b, d, o) =>
      var m := Mk(d, t, n, it, b, o);
      MkItems(d, t, n, it, b, o);
      HoleOnPath(up, m, x);
      PlugItems(up, m);
      SortedMiddle(Pre(up), Items(m), Post(up));
      SideKeys(d, Items(t), it, Items(o), x);
  }

  lemma SortedMiddle(a: seq<Item>, b: seq<Item>, c: seq<Item>)
    requires Sorted(a + b + c)
    ensures Sorted(b)
  {
    assert forall i :: 0 <= i < |b| ==> b[i] == (a + b + c)[|a| + i];
  }

  lemma {:induction false} HolePaths(c: Ctx, t: Tree, u: Tree, key: int)
    requires OnPath(c, key) && Has(t, key) && !(Has(u, key) && PathTo(u, key) == PathTo(t, key))
    ensures !SamePaths(Plug(c, t), Plug(c, u))
  {
    match c
    case Head(_) =>
    case Down(up, n, it, b, d, o) =>
      var s, v := Mk(d, t, n, it, b, o), Mk(d, u, n, it, b, o);
      assert PathTo(s, key) == [n] + PathTo(t, key);
      assert PathTo(v, key) == [n] + PathTo(u, key);
      assert PathTo(s, key)[1..] == PathTo(t, key) && PathTo(v, key)[1..] == PathTo(u, key);
      HolePaths(up, s, v, key);
  }

  /** After a rotation the old top of the subtree is reached over one more node, so the
      generation has to change. */
  lemma RotationMoves(tree: Tree, cy: Ctx, ty: Tree, item: Item, n: Node, t: Tree)
    requires tree == Plug(cy, ty) && Sorted(Items(tree)) && Sorted(Items(Plug(cy, t)))
    requires Items(t) == Items(Grow(ty, item, n)) && Rotation(Grow(ty, item, n), t)
    ensures !SamePaths(tree, Plug(cy, t))
  {
    hide Items, Sorted, SamePaths, OnPath, Plug;
    var g := Grow(ty, item, n);
    var d :| Turned(d, g, t);
    if ty == Nil {
      assert false;
    }
    TopIn(ty);
    HoleOnPath(cy, ty, ty.item);
    PlugItems(cy, t);
    SortedMiddle(Pre(cy), Items(t), Post(cy));
    TurnedTop(d, g, t);
    HolePaths(cy, ty, t, ty.item.key);
  }
}
