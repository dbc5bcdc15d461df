/** Dictionary arrays: the tree and its item count, updated in place. */
module Dictionary {
  import opened Compare
  import opened Sorted
  import opened Avl
  import opened Walk
  import opened Options

  // ----- ranges of entries -----

  predicate InRange(k: Item, lo: Item, hi: Item) {
    Order(lo, k) <= 0 && Order(k, hi) <= 0
  }

  /** The entries whose keys lie in [lo, hi], or those whose keys do not. */
  function Select(s: Entries, lo: Item, hi: Item, inside: bool): Entries {
    if s == [] then []
    else (if InRange(s[0].key, lo, hi) == inside then [s[0]] else []) + Select(s[1..], lo, hi, inside)
  }

  function Within(s: Entries, lo: Item, hi: Item): Entries {
    Select(s, lo, hi, true)
  }

  function Without(s: Entries, lo: Item, hi: Item): Entries {
    Select(s, lo, hi, false)
  }

  lemma Grouped(a: Entries, b: Entries, c: Entries)
    ensures a + (b + c) == a + b + c
  {}

  lemma SelectHead(s: Entries, lo: Item, hi: Item, inside: bool)
    requires s != []
    ensures Select(s, lo, hi, inside)
         == (if InRange(s[0].key, lo, hi) == inside then [s[0]] else []) + Select(s[1..], lo, hi, inside)
  {}

  lemma {:induction false} RangeSplit(a: Entries, b: Entries, lo: Item, hi: Item, inside: bool)
    ensures Select(a + b, lo, hi, inside) == Select(a, lo, hi, inside) + Select(b, lo, hi, inside)
    decreases |a|
  {
    if a == [] {
      assert a + b == b;
    } else {
      hide *;
      SelectHead(a, lo, hi, inside);
      SelectHead(a + b, lo, hi, inside);
      assert (a + b)[0] == a[0] && (a + b)[1..] == a[1..] + b;
      RangeSplit(a[1..], b, lo, hi, inside);
      var first := if InRange(a[0].key, lo, hi) == inside then [a[0]] else [];
      Grouped(first, Select(a[1..], lo, hi, inside), Select(b, lo, hi, inside));
    }
  }

  lemma {:induction false} RangeAll(s: Entries, lo: Item, hi: Item, inside: bool)
    requires forall i :: 0 <= i < |s| ==> InRange(s[i].key, lo, hi) == inside
    ensures Select(s, lo, hi, inside) == s && Select(s, lo, hi, !inside) == []
    decreases |s|
  {
    hide InRange;
    if s != [] {
      RangeAll(s[1..], lo, hi, inside);
      assert s == [s[0]] + s[1..];
    }
  }

  /** In a dictionary a range is a stretch: the entries from the i-th up to the j-th. */
  lemma Stretch(s: Entries, lo: Item, hi: Item, i: nat, j: nat)
    requires i <= j <= |s|
    requires forall m :: 0 <= m < |s| ==> (InRange(s[m].key, lo, hi) <==> i <= m < j)
    ensures Within(s, lo, hi) == s[i..j] && Without(s, lo, hi) == s[..i] + s[j..]
  {
    hide InRange, Select;
    var a, b, c := s[..i], s[i..j], s[j..];
    RangeAll(a, lo, hi, false);
    RangeAll(b, lo, hi, true);
    RangeAll(c, lo, hi, false);
    Joined(s, a, b, c, lo, hi, true);
    Joined(s, a, b, c, lo, hi, false);
    var none: Entries := [];
    assert none + (b + none) == b && a + (none + c) == a + c;
  }

  lemma Joined(s: Entries, a: Entries, b: Entries, c: Entries, lo: Item, hi: Item, inside: bool)
    requires s == a + (b + c)
    ensures Select(s, lo, hi, inside) == Select(a, lo, hi, inside) + (Select(b, lo, hi, inside) + Select(c, lo, hi, inside))
  {
    hide Select;
    RangeSplit(a, b + c, lo, hi, inside);
    RangeSplit(b, c, lo, hi, inside);
  }

  // ----- the ends of a range -----

  function FindNode(t: Tree, k: Item): Option<Entry> {
    if t.Leaf? then None
    else
      var c := Order(k, t.key);
      if c > 0 then FindNode(t.right, k) else if c < 0 then FindNode(t.left, k) else Some(Entry(t.key, t.val))
  }

  lemma {:induction false} FindNodeRefines(t: Tree, k: Item)
    requires Ascending(Contents(t))
    ensures FindNode(t, k) == EntryOf(Contents(t), k)
  {
    hide Order, Ascending;
    if t.Node? {
      OrderedParts(t);
      CutEntry(Contents(t.left), Entry(t.key, t.val), Contents(t.right), k);
      FindNodeRefines(t.left, k);
      FindNodeRefines(t.right, k);
    }
  }

  /** The node at a key or, failing that, the next one. */
  function AtOrAfter(t: Tree, k: Item): Option<Entry> {
    if FindNode(t, k).Some? then FindNode(t, k) else NextNode(t, k)
  }

  function AtOrBefore(t: Tree, k: Item): Option<Entry> {
    if FindNode(t, k).Some? then FindNode(t, k) else PrevNode(t, k)
  }

  lemma {:induction false} LowerIndex(s: Entries, k: Item) returns (i: nat)
    requires Ascending(s)
    ensures i <= |s|
    ensures forall j :: 0 <= j < |s| ==> (Order(k, s[j].key) <= 0 <==> i <= j)
    ensures (if EntryOf(s, k).Some? then EntryOf(s, k) else NextOf(s, k)) == if i < |s| then Some(s[i]) else None
    decreases |s|
  {
    hide Order;
    if s == [] {
      i := 0;
    } else if Order(k, s[0].key) > 0 {
      var r := LowerIndex(s[1..], k);
      i := r + 1;
      forall j | 0 <= j < |s| ensures Order(k, s[j].key) <= 0 <==> i <= j {
        if j > 0 {
          assert s[j] == s[1..][j - 1];
        }
      }
    } else {
      i := 0;
      forall j | 0 < j < |s| ensures Order(k, s[j].key) < 0 {
        Chain(k, s[0].key, s[j].key);
      }
      if Order(k, s[0].key) < 0 {
        NoEntry(s, k);
      }
    }
  }

  lemma {:induction false} UpperIndex(s: Entries, k: Item) returns (j: nat)
    requires Ascending(s)
    ensures j <= |s|
    ensures forall i :: 0 <= i < |s| ==> (Order(s[i].key, k) <= 0 <==> i < j)
    ensures (if EntryOf(s, k).Some? then EntryOf(s, k) else PrevOf(s, k)) == if j > 0 then Some(s[j - 1]) else None
    decreases |s|
  {
    hide Order;
    if s == [] {
      j := 0;
    } else {
      var n := |s| - 1;
      var front, none: Entries := s[..n], [];
      assert s == front + [s[n]] + none;
      CutEntry(front, s[n], none, k);
      Flip(k, s[n].key);
      if Order(k, s[n].key) < 0 {
        j := UpperIndex(front, k);
        forall i | 0 <= i < |s| ensures Order(s[i].key, k) <= 0 <==> i < j {
          if i < n {
            assert s[i] == front[i];
          }
        }
      } else {
        j := |s|;
        forall i | 0 <= i < n ensures Order(s[i].key, k) <= 0 {
          Chain(s[i].key, s[n].key, k);
        }
      }
    }
  }

  /** Where a range begins and ends. */
  ghost predicate Ends(s: Entries, lo: Item, hi: Item, i: nat, j: nat) {
    && i <= |s| && j <= |s|
    && (forall m :: 0 <= m < |s| ==> (Order(lo, s[m].key) <= 0 <==> i <= m))
    && (forall m :: 0 <= m < |s| ==> (Order(s[m].key, hi) <= 0 <==> m < j))
  }

  lemma RangeEnds(t: Tree, lo: Item, hi: Item) returns (i: nat, j: nat)
    requires Ascending(Contents(t))
    ensures
      var s := Contents(t);
      && Ends(s, lo, hi, i, j)
      && AtOrAfter(t, lo) == (if i < |s| then Some(s[i]) else None)
      && AtOrBefore(t, hi) == (if j > 0 then Some(s[j - 1]) else None)
  {
    hide Order, Ascending, Contents;
    var s := Contents(t);
    i := LowerIndex(s, lo);
    j := UpperIndex(s, hi);
    FindNodeRefines(t, lo);
    FindNodeRefines(t, hi);
    NextRefines(t, lo);
    PrevRefines(t, hi);
  }

  lemma InStretch(s: Entries, lo: Item, hi: Item, i: nat, j: nat)
    requires Ends(s, lo, hi, i, j)
    ensures forall m :: 0 <= m < |s| ==> (InRange(s[m].key, lo, hi) <==> i <= m < j)
  {
    hide Order;
  }

  /** The range is the stretch between its ends, or empty when they have crossed. */
  lemma RangeIs(s: Entries, lo: Item, hi: Item, i: nat, j: nat)
    requires Ends(s, lo, hi, i, j)
    ensures i < j ==> Within(s, lo, hi) == s[i..j] && Without(s, lo, hi) == s[..i] + s[j..]
    ensures j <= i ==> Within(s, lo, hi) == [] && Without(s, lo, hi) == s
  {
    InStretch(s, lo, hi, i, j);
    hide Ends, Order, Within, Without, InRange;
    if i < j {
      assert i <= |s| && j <= |s| by { EndsBound(s, lo, hi, i, j); }
      Stretch(s, lo, hi, i, j);
    } else {
      Stretch(s, lo, hi, 0, 0);
      assert s[0..0] == [];
      assert s[..0] + s[0..] == s;
    }
  }

  lemma EndsBound(s: Entries, lo: Item, hi: Item, i: nat, j: nat)
    requires Ends(s, lo, hi, i, j)
    ensures i <= |s| && j <= |s|
  {}

  /** The ends have crossed when the first key is greater than the last. */
  lemma Crossed(s: Entries, i: nat, j: nat)
    requires Ascending(s) && i < |s| && 0 < j <= |s|
    ensures Order(s[i].key, s[j - 1].key) > 0 <==> j <= i
  {
    hide Order;
    Flip(s[i].key, s[j - 1].key);
    SelfOrder(s[i].key);
  }

  /** Setting a key above all others appends it. */
  lemma {:induction false} PutLast(s: Entries, k: Item, v: Item)
    requires AllBelow(s, k)
    ensures Put(s, k, v) == s + [Entry(k, v)]
    decreases |s|
  {
    hide Order;
    if s != [] {
      Flip(k, s[0].key);
      PutLast(s[1..], k, v);
      assert s == [s[0]] + s[1..];
    }
  }

  lemma {:induction false} SizeIs(t: Tree)
    ensures Size(t) == |Contents(t)|
  {
    if t.Node? {
      SizeIs(t.left);
      SizeIs(t.right);
    }
  }

  lemma {:induction false} Lengths(s: Entries, k: Item, v: Item)
    requires Ascending(s)
    ensures |Put(s, k, v)| == if Get(s, k).Some? then |s| else |s| + 1
    ensures |Del(s, k)| == if Get(s, k).Some? then |s| - 1 else |s|
    decreases |s|
  {
    hide Order, Ascending;
    if s != [] {
      AscendingTail(s);
      Lengths(s[1..], k, v);
      if Order(k, s[0].key) < 0 {
        HeadLess(s);
        forall i | 0 <= i < |s| ensures Order(k, s[i].key) != 0 {
          if i > 0 {
            Chain(k, s[0].key, s[i].key);
          }
        }
        AbsentAbove(s, k);
      }
    }
  }

  // ----- the array object -----

  class Dict {
    var links: nat
    var pinned: bool
    var tree: Tree
    var items: nat

    /** The tree is a valid dictionary and the count is its size. */
    ghost predicate Ok()
      reads this
    {
      Valid(tree) && items == Size(tree)
    }

    ghost function Value(): Entries
      reads this
    {
      Contents(tree)
    }

    constructor (pin: bool)
      ensures Ok() && Value() == [] && links == 1 && pinned == pin
    {
      links, pinned, tree, items := 1, pin, Leaf, 0;
    }

    /** array_setitem on a dictionary. */
    method SetItem(k: Item, v: Item) returns (n: nat)
      requires Ok()
      modifies `tree, `items
      ensures Ok() && Value() == Put(old(Value()), k, v) && n == items
    {
      hide Order, Ascending, Balanced;
      if Find(tree, k).None? {
        items := items + 1;
      }
      FindRefines(tree, k);
      InsertRefines(tree, k, v);
      Lengths(Contents(tree), k, v);
      SizeIs(tree);
      tree := Insert(tree, k, v);
      SizeIs(tree);
      n := items;
    }

    /** array_getrange on a dictionary: a new dictionary with the keys in [lo, hi]. */
    method GetRange(lo: Item, hi: Item) returns (nu: Dict)
      requires Ok()
      ensures fresh(nu) && nu.Ok() && nu.Value() == Within(Value(), lo, hi)
    {
      hide Order, Ascending, Balanced, Within, Without, Contents;
      nu := new Dict(false);
      ghost var i, j := RangeEnds(tree, lo, hi);
      ghost var s := Contents(tree);
      RangeIs(s, lo, hi, i, j);
      var first := AtOrAfter(tree, lo);
      var last := AtOrBefore(tree, hi);
      if first.None? || last.None? {
        return;
      }
      Crossed(s, i, j);
      if Order(first.value.key, last.value.key) > 0 {
        return;
      }
      var cur := first.value;
      ghost var m := i;
      assert s[i..i] == [];
      while true
        invariant i <= m < j && cur == s[m] && nu.Ok() && fresh(nu) && nu.Value() == s[i..m]
        decreases j - m
      {
        SliceBelow(s, i, m);
        PutLast(s[i..m], cur.key, cur.val);
        assert s[i..m] + [s[m]] == s[i..m + 1];
        var _ := nu.SetItem(cur.key, cur.val);
        Crossed(s, m, j);
        Crossed(s, j - 1, m + 1);
        if Order(cur.key, last.value.key) == 0 {
          SameIndex(s, m, j - 1);
          return;
        }
        SameIndex(s, m, j - 1);
        Neighbours(tree, m);
        cur := NextNode(tree, cur.key).value;
        m := m + 1;
      }
    }

    /** array_delrange on a dictionary: the keys in [lo, hi] go. The last key is kept as a value, for its
        node is the last to be deleted. */
    method DelRange(lo: Item, hi: Item) returns (n: nat)
      requires Ok()
      modifies `tree, `items
      ensures Ok() && Value() == Without(old(Value()), lo, hi) && n == items
    {
      hide Order, Ascending, Balanced, Within, Without, Contents;
      ghost var i, j := RangeEnds(tree, lo, hi);
      ghost var s := Contents(tree);
      RangeIs(s, lo, hi, i, j);
      var first := AtOrAfter(tree, lo);
      var last := AtOrBefore(tree, hi);
      if first.None? || last.None? {
        return items;
      }
      Crossed(s, i, j);
      if Order(first.value.key, last.value.key) > 0 {
        return items;
      }
      DelFrom(first.value, last.value.key, i, j);
      n := items;
    }

    /** The loop of array_delrange: from the first key in the range to the last. */
    method DelFrom(first: Entry, to: Item, ghost i: nat, ghost j: nat)
      requires Ok() && i < j <= |Value()| && Value()[i] == first && Value()[j - 1].key == to
      modifies `tree, `items
      ensures Ok() && Value() == old(Value())[..i] + old(Value())[j..]
    {
      hide Order, Ascending, Balanced, Within, Without, Contents;
      ghost var s := Contents(tree);
      var cur := Some(first);
      ghost var m := i;
      assert s[..i] + s[i..] == s;
      while cur.Some? && Order(cur.value.key, to) <= 0
        invariant i <= m <= j && Ok() && Value() == s[..i] + s[m..]
        invariant cur == if m < |s| then Some(s[m]) else None
        decreases j - m
      {
        Crossed(s, m, j);
        Remaining(s, i, m);
        Delete(cur.value.key);
        m := m + 1;
        NextRefines(tree, first.key);
        AfterCut(s, i, m);
        cur := NextNode(tree, first.key);
      }
      if m < |s| {
        Crossed(s, m, j);
      }
    }

    /** array_tree_delete, with the item count. */
    method Delete(k: Item)
      requires Ok() && Get(Value(), k).Some?
      modifies `tree, `items
      ensures Ok() && Value() == Del(old(Value()), k)
    {
      hide Order, Ascending, Balanced;
      RemoveRefines(tree, k);
      Lengths(Contents(tree), k, k);
      SizeIs(tree);
      tree := Remove(tree, k).tree;
      SizeIs(tree);
      items := items - 1;
    }
  }

  lemma SliceBelow(s: Entries, i: nat, m: nat)
    requires Ascending(s) && i <= m < |s|
    ensures AllBelow(s[i..m], s[m].key)
  {
    hide Order;
  }

  lemma SameIndex(s: Entries, m: nat, j: nat)
    requires Ascending(s) && m < |s| && j < |s|
    ensures Order(s[m].key, s[j].key) == 0 <==> m == j
  {
    hide Order;
    SelfOrder(s[m].key);
    Flip(s[m].key, s[j].key);
  }

  /** With the entries from i to m gone, the m-th is still there, and deleting it removes just it. */
  lemma Remaining(s: Entries, i: nat, m: nat)
    requires Ascending(s) && i <= m < |s|
    ensures Get(s[..i] + s[m..], s[m].key).Some?
    ensures Del(s[..i] + s[m..], s[m].key) == s[..i] + s[m + 1..]
  {
    hide Order, Ascending;
    var r := s[..i] + s[m..];
    assert r == s[..i] + [s[m]] + s[m + 1..];
    GapAscending(s, i, m);
    SelfOrder(s[m].key);
    Cut(s[..i], s[m], s[m + 1..], s[m].key, s[m].val);
  }

  lemma GapAscending(s: Entries, i: nat, m: nat)
    requires Ascending(s) && i <= m <= |s|
    ensures Ascending(s[..i] + s[m..])
  {
    hide Order;
  }

  /** The next entry after the i-th key, when the entries from i to m are gone, is the m-th. */
  lemma AfterCut(s: Entries, i: nat, m: nat)
    requires Ascending(s) && i < m <= |s|
    ensures NextOf(s[..i] + s[m..], s[i].key) == if m < |s| then Some(s[m]) else None
  {
    hide Order;
    var a, b := s[..i], s[m..];
    forall x | 0 <= x < |a| ensures Order(s[i].key, a[x].key) >= 0 {
      assert a[x] == s[x];
      Flip(s[x].key, s[i].key);
    }
    if b != [] {
      assert b[0] == s[m];
    }
    NextSkips(a, b, s[i].key);
    if m < |s| {
      assert b[0] == s[m];
    }
  }

  lemma {:induction false} NextSkips(a: Entries, b: Entries, k: Item)
    requires forall x :: 0 <= x < |a| ==> Order(k, a[x].key) >= 0
    requires b != [] ==> Order(k, b[0].key) < 0
    ensures NextOf(a + b, k) == if b == [] then None else Some(b[0])
    decreases |a|
  {
    hide Order;
    if a == [] {
      assert a + b == b;
    } else {
      assert (a + b)[1..] == a[1..] + b;
      NextSkips(a[1..], b, k);
    }
  }
}
