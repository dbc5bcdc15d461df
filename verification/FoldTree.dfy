/** Loading the macro file: a doubly linked chain of macros is folded into a search tree in place. The
left part of every centre is folded; the right part is not, because the centre's right pointer is never
moved. */
module FoldTree {

  /** A tree over the numbers of the nodes. */
  datatype Shape = Tip | At(left: Shape, node: nat, right: Shape)

  function InOrder(t: Shape): seq<nat> {
    if t.Tip? then [] else InOrder(t.left) + [t.node] + InOrder(t.right)
  }

  function Height(t: Shape): nat {
    if t.Tip? then 0 else 1 + Max(Height(t.left), Height(t.right))
  }

  function Max(a: nat, b: nat): nat {
    if a > b then a else b
  }

  // ----- what folding a chain builds -----

  /** Nodes i to hi - 1, each the right child of the one before. */
  function Spine(i: nat, hi: nat): Shape
    requires i <= hi
    decreases hi - i
  {
    if i == hi then Tip else At(Tip, i, Spine(i + 1, hi))
  }

  /** The chain from lo to hi - 1, folded around its node c. */
  function Folded(lo: nat, c: nat, hi: nat): Shape
    requires lo <= c < hi
    decreases c - lo, 1
  {
    At(FoldedLeft(lo, c), c, Spine(c + 1, hi))
  }

  /** The nodes from lo to c - 1, folded around the one half way. */
  function FoldedLeft(lo: nat, c: nat): Shape
    requires lo <= c
    decreases c - lo, 0
  {
    if lo == c then Tip else Folded(lo, c - (c - lo + 1) / 2, c)
  }

  // ----- the fold in place -----

  const NULL := -1

  /** Following the pointers from a node one reads the given tree. */
  predicate Reads(l: seq<int>, r: seq<int>, node: int, t: Shape)
    decreases t
  {
    match t
    case Tip => node == NULL
    case At(a, i, b) => node == i && i < |l| && i < |r| && Reads(l, r, l[i], a) && Reads(l, r, r[i], b)
  }

  ghost predicate Ranged(t: Shape, lo: nat, hi: nat) {
    t.At? ==> lo <= t.node < hi && Ranged(t.left, lo, hi) && Ranged(t.right, lo, hi)
  }

  lemma {:induction false} RangedMore(t: Shape, lo: nat, hi: nat, lo': nat, hi': nat)
    requires Ranged(t, lo, hi) && lo' <= lo && hi <= hi'
    ensures Ranged(t, lo', hi')
  {
    if t.At? {
      RangedMore(t.left, lo, hi, lo', hi');
      RangedMore(t.right, lo, hi, lo', hi');
    }
  }

  lemma {:induction false} SpineRanged(i: nat, hi: nat)
    requires i <= hi
    ensures Ranged(Spine(i, hi), i, hi)
    decreases hi - i
  {
    if i < hi {
      SpineRanged(i + 1, hi);
      RangedMore(Spine(i + 1, hi), i + 1, hi, i, hi);
    }
  }

  lemma {:induction false} FoldedRanged(lo: nat, c: nat)
    requires lo <= c
    ensures Ranged(FoldedLeft(lo, c), lo, c)
    decreases c - lo
  {
    if lo < c {
      var m := c - (c - lo + 1) / 2;
      FoldedRanged(lo, m);
      RangedMore(FoldedLeft(lo, m), lo, m, lo, c);
      SpineRanged(m + 1, c);
      RangedMore(Spine(m + 1, c), m + 1, c, lo, c);
    }
  }

  /** A tree is read from its own nodes only. */
  lemma {:induction false} ReadsLocally(l: seq<int>, r: seq<int>, l': seq<int>, r': seq<int>, node: int, t: Shape,
      lo: nat, hi: nat)
    requires Reads(l, r, node, t) && Ranged(t, lo, hi) && |l'| == |l| && |r'| == |r|
    requires forall i :: lo <= i < hi && i < |l| ==> l'[i] == l[i]
    requires forall i :: lo <= i < hi && i < |r| ==> r'[i] == r[i]
    ensures Reads(l', r', node, t)
    decreases t
  {
    if t.At? {
      ReadsLocally(l, r, l', r', l[t.node], t.left, lo, hi);
      ReadsLocally(l, r, l', r', r[t.node], t.right, lo, hi);
    }
  }

  /** Nodes lo to hi - 1 are linked backwards, and to nothing else. */
  ghost predicate Backward(l: seq<int>, lo: nat, hi: nat) {
    hi <= |l| && forall i :: lo <= i < hi ==> l[i] == if i == lo then NULL else i - 1
  }

  ghost predicate Forward(r: seq<int>, lo: nat, hi: nat) {
    hi <= |r| && forall i :: lo <= i < hi ==> r[i] == if i + 1 == hi then NULL else i + 1
  }

  class Chain {
    var left: seq<int>
    var right: seq<int>

    constructor ()
      ensures left == [] && right == []
    {
      left, right := [], [];
    }

    /** The nodes form one chain, linked both ways. */
    ghost predicate Linked(n: nat)
      reads this
    {
      |left| == |right| == n && Backward(left, 0, n) && Forward(right, 0, n)
    }

    /** macrochain's new node: after the last one, if there is one. */
    method Append(last: int, ghost n: nat)
      requires Linked(n) && last == n - 1
      modifies this
      ensures Linked(n + 1)
    {
      var node := |left|;
      left, right := left + [NULL], right + [NULL];
      if last != NULL {
        left := left[node := last];
        right := right[last := node];
      }
    }

    method CountLeft(center: nat, ghost lo: nat) returns (count: nat)
      requires lo <= center && Backward(left, lo, center + 1)
      ensures count == center - lo + 1
    {
      count := 0;
      var next: int := center;
      while next != NULL
        invariant count <= center - lo + 1
        invariant next == if count == center - lo + 1 then NULL else center - count
        decreases center - lo + 1 - count
      {
        next := left[next];
        count := count + 1;
      }
    }

    method CountRight(center: nat, ghost hi: nat) returns (count: nat)
      requires center < hi && Forward(right, center, hi)
      ensures count == hi - center
    {
      count := 0;
      var next: int := center;
      while next != NULL
        invariant count <= hi - center
        invariant next == if count == hi - center then NULL else center + count
        decreases hi - center - count
      {
        next := right[next];
        count := count + 1;
      }
    }

    method WalkLeft(center: nat, steps: nat, ghost lo: nat) returns (next: int)
      requires lo + steps <= center && Backward(left, lo, center + 1)
      ensures next == center - steps
    {
      next := center;
      var count := steps;
      while count > 0
        invariant 0 <= count <= steps && next == center - (steps - count)
      {
        next := left[next];
        count := count - 1;
      }
    }

    /** foldtree. */
    method Fold(center: nat, ghost lo: nat, ghost hi: nat)
      requires lo <= center < hi && |left| == |right| && Backward(left, lo, hi) && Forward(right, lo, hi)
      modifies this
      ensures |left| == |old(left)| && |right| == |old(right)|
      ensures Reads(left, right, center, Folded(lo, center, hi))
      ensures forall i :: 0 <= i < |left| && !(lo <= i < hi) ==> left[i] == old(left)[i]
      ensures forall i :: 0 <= i < |right| && !(lo <= i < hi) ==> right[i] == old(right)[i]
      decreases hi - lo
    {
      FoldLeftPart(center, lo, hi);
      ghost var l, r := left, right;
      var count := CountRight(center, hi);
      if count > 1 {
        var next := right[center];
        left := left[next := NULL];
        Fold(next, center + 1, hi);
        assert Spine(center + 1, hi) == Folded(center + 1, center + 1, hi);
      }
      assert Reads(left, right, right[center], Spine(center + 1, hi));
      FoldedRanged(lo, center);
      ReadsLocally(l, r, left, right, left[center], FoldedLeft(lo, center), lo, center);
    }

    /** The first half of foldtree: the centre's left pointer comes to the folded left part. */
    method FoldLeftPart(center: nat, ghost lo: nat, ghost hi: nat)
      requires lo <= center < hi && |left| == |right| && Backward(left, lo, hi) && Forward(right, lo, hi)
      modifies this
      ensures |left| == |old(left)| && |right| == |old(right)|
      ensures Reads(left, right, left[center], FoldedLeft(lo, center))
      ensures forall i :: 0 <= i < |left| && !(lo <= i <= center) ==> left[i] == old(left)[i]
      ensures forall i :: 0 <= i < |right| && !(lo <= i < center) ==> right[i] == old(right)[i]
      decreases hi - lo, 0
    {
      var count := CountLeft(center, lo);
      if count > 1 {
        var next := WalkLeft(center, count / 2, lo);
        right := right[left[center] := NULL];
        left := left[center := next];
        Fold(next, lo, center);
      }
    }
  }

  // ----- the tree it builds -----

  function Range(lo: nat, hi: nat): seq<nat>
    requires lo <= hi
  {
    seq(hi - lo, i requires 0 <= i < hi - lo => lo + i)
  }

  lemma {:induction false} SpineOrder(i: nat, hi: nat)
    requires i <= hi
    ensures InOrder(Spine(i, hi)) == Range(i, hi)
    decreases hi - i
  {
    if i < hi {
      SpineOrder(i + 1, hi);
      var none: seq<nat> := [];
      assert none + [i] + Range(i + 1, hi) == Range(i, hi);
    }
  }

  /** The nodes keep their order. */
  lemma {:induction false} FoldedOrder(lo: nat, c: nat)
    requires lo <= c
    ensures InOrder(FoldedLeft(lo, c)) == Range(lo, c)
    decreases c - lo
  {
    if lo < c {
      var m := c - (c - lo + 1) / 2;
      FoldedOrder(lo, m);
      SpineOrder(m + 1, c);
      RangeJoin(lo, m, c);
    }
  }

  lemma RangeJoin(lo: nat, m: nat, c: nat)
    requires lo <= m < c
    ensures Range(lo, m) + [m] + Range(m + 1, c) == Range(lo, c)
  {}

  /** What macroload builds from a chain of n macros. */
  function Loaded(n: nat): Shape {
    FoldedLeft(0, n)
  }

  lemma LoadedFolds(n: nat)
    requires n > 0
    ensures Loaded(n) == Folded(0, n / 2, n)
  {
    assert n - (n + 1) / 2 == n / 2;
  }

  /** Its height. */
  function LoadHeight(n: nat): nat {
    if n == 0 then 0 else 1 + Max(LoadHeight(n / 2), (n + 1) / 2 - 1)
  }

  lemma {:induction false} SpineHeight(i: nat, hi: nat)
    requires i <= hi
    ensures Height(Spine(i, hi)) == hi - i
    decreases hi - i
  {
    if i < hi {
      SpineHeight(i + 1, hi);
    }
  }

  lemma {:induction false} LoadHeightIs(lo: nat, c: nat)
    requires lo <= c
    ensures Height(FoldedLeft(lo, c)) == LoadHeight(c - lo)
    decreases c - lo
  {
    if lo < c {
      var m := c - (c - lo + 1) / 2;
      LoadHeightIs(lo, m);
      SpineHeight(m + 1, c);
      assert m - lo == (c - lo) / 2 && c - (m + 1) == (c - lo + 1) / 2 - 1;
    }
  }

  /** From seven macros on, half of them form one long branch. */
  lemma {:induction false} HeightIsHalf(n: nat)
    requires n >= 7
    ensures LoadHeight(n) == (n + 1) / 2
    decreases n
  {
    if n / 2 >= 7 {
      HeightIsHalf(n / 2);
    } else {
      SmallHeights();
    }
  }

  lemma SmallHeights()
    ensures LoadHeight(0) == 0 && LoadHeight(1) == 1 && LoadHeight(2) == 2 && LoadHeight(3) == 2
    ensures LoadHeight(4) == 3 && LoadHeight(5) == 3 && LoadHeight(6) == 3
  {}

  /** The number of binary digits, which is the height of the lowest tree with n nodes. */
  function Bits(n: nat): nat {
    if n == 0 then 0 else 1 + Bits(n / 2)
  }

  lemma {:induction false} BitsBelowHalf(n: nat)
    requires n >= 9
    ensures Bits(n) < (n + 1) / 2
    decreases n
  {
    if n >= 18 {
      BitsBelowHalf(n / 2);
    } else {
      assert Bits(4) == 3 && Bits(5) == 3 && Bits(6) == 3 && Bits(7) == 3 && Bits(8) == 4;
    }
  }

  /** The loaded tree is as low as a search tree can be exactly for up to six macros, and for eight. */
  lemma LowestIff(n: nat)
    ensures Height(Loaded(n)) <= Bits(n) <==> n <= 6 || n == 8
    ensures n >= 7 ==> Height(Loaded(n)) == (n + 1) / 2
  {
    LoadHeightIs(0, n);
    SmallHeights();
    assert Bits(1) == 1 && Bits(2) == 2 && Bits(3) == 2 && Bits(4) == 3 && Bits(5) == 3 && Bits(6) == 3 && Bits(7) == 3;
    if n >= 7 {
      HeightIsHalf(n);
    }
    if n >= 9 {
      BitsBelowHalf(n);
    }
  }
}
