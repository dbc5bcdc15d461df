/** How high an AVL tree can be: Fibonacci bounds, and what a lookup costs. */
module Heights {
  import opened Compare
  import opened Sorted
  import opened Avl

  const INT_MAX: int := 0x7FFF_FFFF
  const SHRT_MAX: int := 0x7FFF

  function Fib(n: nat): nat {
    if n < 2 then n else Fib(n - 1) + Fib(n - 2)
  }

  lemma {:induction false} FibGrows(m: nat, n: nat)
    requires m <= n
    ensures Fib(m) <= Fib(n)
    decreases n
  {
    if m < n {
      FibGrows(m, n - 1);
      if n >= 2 {
        assert Fib(n) == Fib(n - 1) + Fib(n - 2);
      }
    }
  }

  lemma FibStep(n: nat)
    ensures Fib(n + 2) == Fib(n + 1) + Fib(n)
  {}

  /** A balanced tree of height h has at least Fib(h + 2) - 1 nodes. */
  lemma {:induction false} SizeAtLeast(t: Tree)
    requires Balanced(t)
    ensures HeightOf(t) >= 0 && Size(t) + 1 >= Fib(HeightOf(t) + 2)
  {
    hide Balanced, Contents;
    HeightNat(t);
    if t.Node? {
      Parts(t);
      SizeAtLeast(t.left);
      SizeAtLeast(t.right);
      var h, l, r := t.height, HeightOf(t.left), HeightOf(t.right);
      FibStep(h);
      if l >= r {
        FibGrows(h, r + 2);
      } else {
        FibGrows(h, l + 2);
      }
    }
  }

  lemma FibPairs(n: nat, a: nat, b: nat)
    requires Fib(n) == a && Fib(n + 1) == b
    ensures Fib(n + 2) == a + b && Fib(n + 3) == a + 2 * b
  {}

  lemma Fib47()
    ensures Fib(47) == 2971215073
  {
    hide Fib;
    assert Fib(0) == 0 && Fib(1) == 1 by { FibBase(); }
    FibPairs(0, 0, 1);
    FibPairs(2, 1, 2);
    FibPairs(4, 3, 5);
    FibPairs(6, 8, 13);
    FibPairs(8, 21, 34);
    FibPairs(10, 55, 89);
    FibPairs(12, 144, 233);
    FibPairs(14, 377, 610);
    FibPairs(16, 987, 1597);
    FibPairs(18, 2584, 4181);
    FibPairs(20, 6765, 10946);
    FibPairs(22, 17711, 28657);
    FibPairs(24, 46368, 75025);
    FibPairs(26, 121393, 196418);
    FibPairs(28, 317811, 514229);
    FibPairs(30, 832040, 1346269);
    FibPairs(32, 2178309, 3524578);
    FibPairs(34, 5702887, 9227465);
    FibPairs(36, 14930352, 24157817);
    FibPairs(38, 39088169, 63245986);
    FibPairs(40, 102334155, 165580141);
    FibPairs(42, 267914296, 433494437);
    FibPairs(44, 701408733, 1134903170);
  }

  lemma FibBase()
    ensures Fib(0) == 0 && Fib(1) == 1
  {}

  /** A dictionary whose item count fits an int is at most 44 high: the short that stores a height
      never overflows. */
  lemma HeightBound(t: Tree)
    requires Balanced(t) && Size(t) <= INT_MAX
    ensures 0 <= HeightOf(t) <= 44 <= SHRT_MAX
  {
    SizeAtLeast(t);
    if HeightOf(t) >= 45 {
      FibGrows(47, HeightOf(t) + 2);
      Fib47();
    }
  }

  /** The number of comparisons array_tree_find makes. */
  function Comparisons(t: Tree, k: Item): nat {
    if t.Leaf? then 0
    else
      var c := Order(k, t.key);
      if c > 0 then 1 + Comparisons(t.right, k) else if c < 0 then 1 + Comparisons(t.left, k) else 1
  }

  lemma {:induction false} FewComparisons(t: Tree, k: Item)
    requires Balanced(t)
    ensures Comparisons(t, k) <= HeightOf(t)
  {
    if t.Node? {
      Parts(t);
      FewComparisons(t.left, k);
      FewComparisons(t.right, k);
    }
  }

  /** So no lookup in a dictionary makes more than 44 of them. */
  lemma LookupBound(t: Tree, k: Item)
    requires Balanced(t) && Size(t) <= INT_MAX
    ensures Comparisons(t, k) <= 44
  {
    HeightBound(t);
    FewComparisons(t, k);
  }
}
