/** How high a balanced tree can be, and the room the fixed stacks therefore need. */
module AvlHeight {
  import opened AvlTree

  /** Size of the da[], pa[] and avl_stack[] arrays. */
  const AVL_MAX_HEIGHT: nat := 32

  /** Item count below which no stack overflows: one less than the 34th Fibonacci number. */
  const MAX_ITEMS: nat := 5702886

  function Fib(n: nat): nat {
    if n < 2 then n else Fib(n - 1) + Fib(n - 2)
  }

  lemma {:induction false} FibMonotone(m: nat, n: nat)
    requires m <= n
    ensures Fib(m) <= Fib(n)
    decreases n - m
  {
    if m < n {
      FibMonotone(m + 1, n);
    }
  }

  lemma FibStep(n: nat)
    ensures Fib(n + 2) == Fib(n + 1) + Fib(n)
  {
  }

  lemma FewestStep(a: nat, b: nat)
    requires -1 <= b - a <= 1
    ensures Fib(Max(a, b) + 3) <= Fib(a + 2) + Fib(b + 2)
  {
    hide Fib;
    FibStep(Max(a, b) + 1);
    FibMonotone(Max(a, b) + 1, a + 2);
    FibMonotone(Max(a, b) + 1, b + 2);
  }

  /** A balanced tree of height h holds at least Fib(h + 2) - 1 items. */
  lemma {:induction false} FewestItems(t: Tree)
    requires Avl(t)
    ensures |Items(t)| >= Fib(Height(t) + 2) - 1
  {
    hide Fib;
    match t
    case Nil =>
      FibStep(0);
      FibSmall();
    case Bin(l, _, _, _, r) =>
      FewestItems(l);
      FewestItems(r);
      FewestStep(Height(l), Height(r));
  }

  lemma FibSmall()
    ensures Fib(0) == 0 && Fib(1) == 1
  {
  }

  lemma Fib34()
    ensures Fib(34) == MAX_ITEMS + 1
  {
    assert Fib(8) == 21 && Fib(9) == 34;
    assert Fib(16) == 987 && Fib(17) == 1597;
    assert Fib(24) == 46368 && Fib(25) == 75025;
    assert Fib(32) == 2178309 && Fib(33) == 3524578;
  }

  lemma HeightBound(t: Tree)
    requires Avl(t) && |Items(t)| < MAX_ITEMS
    ensures Height(t) < AVL_MAX_HEIGHT
  {
    hide Fib, Items, Avl;
    FewestItems(t);
    if Height(t) >= AVL_MAX_HEIGHT {
      Fib34();
      FibMonotone(34, Height(t) + 2);
    }
  }

  ghost function Depth(c: Ctx): nat {
    match c
    case Head(_) => 0
    case Down(up, _, _, _, _, _) => 1 + Depth(up)
  }

  lemma {:induction false} PlugHeight(c: Ctx, t: Tree)
    ensures Depth(c) + Height(t) <= Height(Plug(c, t))
  {
    match c
    case Head(_) =>
    case Down(up, n, it, b, d, o) =>
      PlugHeight(up, Mk(d, t, n, it, b, o));
  }

  lemma {:induction false} DescendHeight(s: Tree, key: int, da: seq<Dir>, t: Tree)
    requires Descends(s, key, da, t)
    ensures |da| + Height(t) <= Height(s)
  {
    if |da| > 0 {
      DescendHeight(Child(da[0], s), key, da[1..], t);
    }
  }
}
