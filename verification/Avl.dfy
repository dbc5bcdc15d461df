/** The AVL tree under a dictionary: stored heights, rotations, insertion and removal. */
module Avl {
  import opened Compare
  import opened Sorted
  import opened Options

  datatype Tree = Leaf | Node(left: Tree, key: Item, val: Item, height: int, right: Tree)

  function HeightOf(t: Tree): int {
    if t.Leaf? then 0 else t.height
  }

  function Diff(t: Tree): int {
    if t.Leaf? then 0 else HeightOf(t.right) - HeightOf(t.left)
  }

  function Max(a: int, b: int): int {
    if a > b then a else b
  }

  function Fix(l: Tree, k: Item, v: Item, r: Tree): Tree {
    Node(l, k, v, 1 + Max(HeightOf(l), HeightOf(r)), r)
  }

  function RotateLeftSingle(a: Tree): Tree
    requires a.Node? && a.right.Node?
  {
    var b := a.right;
    Fix(Fix(a.left, a.key, a.val, b.left), b.key, b.val, b.right)
  }

  function RotateLeftDouble(a: Tree): Tree
    requires a.Node? && a.right.Node? && a.right.left.Node?
  {
    var b := a.right;
    var c := b.left;
    Fix(Fix(a.left, a.key, a.val, c.left), c.key, c.val, Fix(c.right, b.key, b.val, b.right))
  }

  function RotateRightSingle(a: Tree): Tree
    requires a.Node? && a.left.Node?
  {
    var b := a.left;
    Fix(b.left, b.key, b.val, Fix(b.right, a.key, a.val, a.right))
  }

  function RotateRightDouble(a: Tree): Tree
    requires a.Node? && a.left.Node? && a.left.right.Node?
  {
    var b := a.left;
    var c := b.right;
    Fix(Fix(b.left, b.key, b.val, c.left), c.key, c.val, Fix(c.right, a.key, a.val, a.right))
  }

  /** The nodes a rotation follows are there. */
  predicate CanBalance(t: Tree) {
    t.Node? ==>
      && (Diff(t) == 2 ==> t.right.Node? && (Diff(t.right) < 0 ==> t.right.left.Node?))
      && (Diff(t) != 2 && (Diff(t) >= 2 || Diff(t) <= -2) ==>
            t.left.Node? && (Diff(t.left) > 0 ==> t.left.right.Node?))
  }

  function Balance(t: Tree): Tree
    requires CanBalance(t)
  {
    if t.Leaf? then t
    else if -2 < Diff(t) < 2 then Fix(t.left, t.key, t.val, t.right)
    else if Diff(t) == 2 then
      if Diff(t.right) >= 0 then RotateLeftSingle(t) else RotateLeftDouble(t)
    else
      if Diff(t.left) <= 0 then RotateRightSingle(t) else RotateRightDouble(t)
  }

  /** Stored heights are exact, and sibling heights differ by at most one. */
  predicate Balanced(t: Tree) {
    t.Node? ==>
      && Balanced(t.left) && Balanced(t.right)
      && t.height == 1 + Max(HeightOf(t.left), HeightOf(t.right))
      && -1 <= Diff(t) <= 1
  }

  function Contents(t: Tree): Entries {
    if t.Leaf? then [] else Contents(t.left) + [Entry(t.key, t.val)] + Contents(t.right)
  }

  function Size(t: Tree): nat {
    if t.Leaf? then 0 else Size(t.left) + 1 + Size(t.right)
  }

  ghost predicate Valid(t: Tree) {
    Balanced(t) && Ascending(Contents(t))
  }

  lemma {:induction false} HeightNat(t: Tree)
    requires Balanced(t)
    ensures HeightOf(t) >= 0 && (HeightOf(t) == 0 <==> t.Leaf?)
  {
    if t.Node? {
      HeightNat(t.left);
      HeightNat(t.right);
    }
  }

  lemma FixOk(l: Tree, k: Item, v: Item, r: Tree)
    requires Balanced(l) && Balanced(r) && -1 <= HeightOf(r) - HeightOf(l) <= 1
    ensures Balanced(Fix(l, k, v, r)) && HeightOf(Fix(l, k, v, r)) == 1 + Max(HeightOf(l), HeightOf(r))
  {
    hide Balanced;
    FixUnfold(l, k, v, r);
  }

  lemma FixUnfold(l: Tree, k: Item, v: Item, r: Tree)
    ensures Balanced(Fix(l, k, v, r)) <==> Balanced(l) && Balanced(r) && -1 <= HeightOf(r) - HeightOf(l) <= 1
  {}

  lemma Parts(t: Tree)
    requires Balanced(t) && t.Node?
    ensures Balanced(t.left) && Balanced(t.right) && t.height == 1 + Max(HeightOf(t.left), HeightOf(t.right))
    ensures -1 <= HeightOf(t.right) - HeightOf(t.left) <= 1
    ensures HeightOf(t.left) >= 0 && HeightOf(t.right) >= 0
    ensures HeightOf(t.left) == 0 <==> t.left.Leaf?
    ensures HeightOf(t.right) == 0 <==> t.right.Leaf?
  {
    HeightNat(t.left);
    HeightNat(t.right);
  }

  /** What a balancing step achieves on children of heights hl and hr. */
  predicate GoodHeight(h: int, hl: int, hr: int) {
    Max(hl, hr) <= h <= 1 + Max(hl, hr)
  }

  lemma LeftRotations(t: Tree)
    requires t.Node? && Balanced(t.left) && Balanced(t.right) && HeightOf(t.right) == HeightOf(t.left) + 2
    ensures CanBalance(t) && Balanced(Balance(t)) && GoodHeight(HeightOf(Balance(t)), HeightOf(t.left), HeightOf(t.right))
  {
    hide Balanced;
    HeightNat(t.left);
    HeightNat(t.right);
    var a, b := t.left, t.right;
    Parts(b);
    if Diff(b) >= 0 {
      FixOk(a, t.key, t.val, b.left);
      FixOk(Fix(a, t.key, t.val, b.left), b.key, b.val, b.right);
    } else {
      var c := b.left;
      Parts(c);
      FixOk(a, t.key, t.val, c.left);
      FixOk(c.right, b.key, b.val, b.right);
      FixOk(Fix(a, t.key, t.val, c.left), c.key, c.val, Fix(c.right, b.key, b.val, b.right));
    }
  }

  lemma RightRotations(t: Tree)
    requires t.Node? && Balanced(t.left) && Balanced(t.right) && HeightOf(t.left) == HeightOf(t.right) + 2
    ensures CanBalance(t) && Balanced(Balance(t)) && GoodHeight(HeightOf(Balance(t)), HeightOf(t.left), HeightOf(t.right))
  {
    hide Balanced;
    HeightNat(t.left);
    HeightNat(t.right);
    var b, a := t.left, t.right;
    Parts(b);
    if Diff(b) <= 0 {
      FixOk(b.right, t.key, t.val, a);
      FixOk(b.left, b.key, b.val, Fix(b.right, t.key, t.val, a));
    } else {
      var c := b.right;
      Parts(c);
      FixOk(b.left, b.key, b.val, c.left);
      FixOk(c.right, t.key, t.val, a);
      FixOk(Fix(b.left, b.key, b.val, c.left), c.key, c.val, Fix(c.right, t.key, t.val, a));
    }
  }

  /** Two balanced trees whose heights differ by at most two: balancing gives a balanced tree, as high
      as the tree before balancing or one lower. */
  lemma BalanceOk(l: Tree, k: Item, v: Item, h: int, r: Tree)
    requires Balanced(l) && Balanced(r) && -2 <= HeightOf(r) - HeightOf(l) <= 2
    ensures
      var t := Node(l, k, v, h, r);
      && CanBalance(t) && Balanced(Balance(t))
      && GoodHeight(HeightOf(Balance(t)), HeightOf(l), HeightOf(r))
      && (-2 < HeightOf(r) - HeightOf(l) < 2 ==> HeightOf(Balance(t)) == 1 + Max(HeightOf(l), HeightOf(r)))
  {
    hide Balanced, RotateLeftSingle, RotateLeftDouble, RotateRightSingle, RotateRightDouble;
    var t := Node(l, k, v, h, r);
    if HeightOf(r) == HeightOf(l) + 2 {
      LeftRotations(t);
    } else if HeightOf(l) == HeightOf(r) + 2 {
      RightRotations(t);
    } else {
      FixOk(l, k, v, r);
    }
  }

  lemma BalanceSame(t: Tree)
    requires Balanced(t)
    ensures CanBalance(t) && Balance(t) == t
  {}

  /** Rotations keep the entries in order. */
  lemma BalanceContents(t: Tree)
    requires CanBalance(t)
    ensures Contents(Balance(t)) == Contents(t)
  {
    if t.Node? && !(-2 < Diff(t) < 2) {
      var x := [Entry(t.key, t.val)];
      if Diff(t) == 2 {
        RotateLeftContents(t);
      } else {
        RotateRightContents(t);
      }
    }
  }

  lemma FixContents(l: Tree, k: Item, v: Item, r: Tree)
    ensures Contents(Fix(l, k, v, r)) == Contents(l) + [Entry(k, v)] + Contents(r)
  {}

  lemma Assoc(a: Entries, x: Entries, b: Entries, y: Entries, c: Entries)
    ensures (a + x + b) + y + c == a + x + (b + y + c)
  {}

  lemma RotateLeftContents(t: Tree)
    requires t.Node? && t.right.Node?
    ensures Contents(RotateLeftSingle(t)) == Contents(t)
    ensures t.right.left.Node? ==> Contents(RotateLeftDouble(t)) == Contents(t)
  {
    hide Contents, Fix;
    var b := t.right;
    Unfold(t);
    Unfold(b);
    var x, y := [Entry(t.key, t.val)], [Entry(b.key, b.val)];
    FixContents(t.left, t.key, t.val, b.left);
    FixContents(Fix(t.left, t.key, t.val, b.left), b.key, b.val, b.right);
    Assoc(Contents(t.left), x, Contents(b.left), y, Contents(b.right));
    if b.left.Node? {
      var c := b.left;
      Unfold(c);
      var z := [Entry(c.key, c.val)];
      FixContents(t.left, t.key, t.val, c.left);
      FixContents(c.right, b.key, b.val, b.right);
      FixContents(Fix(t.left, t.key, t.val, c.left), c.key, c.val, Fix(c.right, b.key, b.val, b.right));
      Assoc(Contents(c.left), z, Contents(c.right), y, Contents(b.right));
      Assoc(Contents(t.left), x, Contents(c.left), z, Contents(c.right) + y + Contents(b.right));
    }
  }

  lemma RotateRightContents(t: Tree)
    requires t.Node? && t.left.Node?
    ensures Contents(RotateRightSingle(t)) == Contents(t)
    ensures t.left.right.Node? ==> Contents(RotateRightDouble(t)) == Contents(t)
  {
    hide Contents, Fix;
    var b := t.left;
    Unfold(t);
    Unfold(b);
    var x, y := [Entry(t.key, t.val)], [Entry(b.key, b.val)];
    FixContents(b.right, t.key, t.val, t.right);
    FixContents(b.left, b.key, b.val, Fix(b.right, t.key, t.val, t.right));
    Assoc(Contents(b.left), y, Contents(b.right), x, Contents(t.right));
    if b.right.Node? {
      var c := b.right;
      Unfold(c);
      var z := [Entry(c.key, c.val)];
      FixContents(b.left, b.key, b.val, c.left);
      FixContents(c.right, t.key, t.val, t.right);
      FixContents(Fix(b.left, b.key, b.val, c.left), c.key, c.val, Fix(c.right, t.key, t.val, t.right));
      Assoc(Contents(c.left), z, Contents(c.right), x, Contents(t.right));
      Assoc(Contents(b.left), y, Contents(c.left), z, Contents(c.right) + x + Contents(t.right));
      Assoc(Contents(b.left), y, Contents(c.left) + z + Contents(c.right), x, Contents(t.right));
    }
  }

  lemma Unfold(t: Tree)
    requires t.Node?
    ensures Contents(t) == Contents(t.left) + [Entry(t.key, t.val)] + Contents(t.right)
  {}

  // ----- operations -----

  function Find(t: Tree, k: Item): Option<Item> {
    if t.Leaf? then None
    else
      var c := Order(k, t.key);
      if c > 0 then Find(t.right, k) else if c < 0 then Find(t.left, k) else Some(t.val)
  }

  /** array_tree_insert followed by storing the value: a new node is balanced all the way up, an old
      one only gets the value. */
  function Insert(t: Tree, k: Item, v: Item): (r: Tree)
    requires Balanced(t)
    ensures Balanced(r) && r.Node?
    ensures HeightOf(t) <= HeightOf(r) <= HeightOf(t) + 1
    ensures Find(t, k).Some? ==> HeightOf(r) == HeightOf(t)
  {
    if t.Leaf? then Node(Leaf, k, v, 1, Leaf)
    else
      var c := Order(k, t.key);
      if c == 0 then t.(val := v)
      else
        var l, r := if c < 0 then Insert(t.left, k, v) else t.left, if c > 0 then Insert(t.right, k, v) else t.right;
        BalanceOk(l, t.key, t.val, t.height, r);
        var u := Node(l, t.key, t.val, t.height, r);
        if Find(t, k).None? then Balance(u) else u
  }

  function GetMax(t: Tree): Entry
    requires t.Node?
  {
    if t.right.Node? then GetMax(t.right) else Entry(t.key, t.val)
  }

  /** What remove_node returns: the tree without the node, and the node it took out. */
  datatype Removed = Removed(tree: Tree, node: Option<Entry>)

  /** array_tree_remove_node. A node with two children is replaced by the largest node of its left
      subtree, which is removed from there first. */
  function Remove(t: Tree, k: Item): (r: Removed)
    requires Balanced(t)
    ensures Balanced(r.tree)
    ensures HeightOf(t) - 1 <= HeightOf(r.tree) <= HeightOf(t)
    decreases Size(t)
  {
    HeightNat(t);
    if t.Leaf? then Removed(Leaf, None)
    else
      HeightNat(t.left);
      HeightNat(t.right);
      var c := Order(k, t.key);
      if c < 0 then
        var s := Remove(t.left, k);
        BalanceOk(s.tree, t.key, t.val, t.height, t.right);
        Removed(Balance(t.(left := s.tree)), s.node)
      else if c > 0 then
        var s := Remove(t.right, k);
        BalanceOk(t.left, t.key, t.val, t.height, s.tree);
        Removed(Balance(t.(right := s.tree)), s.node)
      else if t.left.Leaf? then RemovedTop(t, t.right)
      else if t.right.Leaf? then RemovedTop(t, t.left)
      else
        var s := Remove(t.left, GetMax(t.left).key);
        var e := if s.node.Some? then s.node.value else Entry(t.key, t.val);
        BalanceOk(s.tree, e.key, e.val, t.height, t.right);
        Removed(Balance(Node(s.tree, e.key, e.val, t.height, t.right)), Some(Entry(t.key, t.val)))
  }

  /** A node with at most one child gives way to that child. */
  function RemovedTop(t: Tree, child: Tree): Removed
    requires t.Node? && Balanced(child)
  {
    BalanceSame(child);
    Removed(Balance(child), Some(Entry(t.key, t.val)))
  }

  // ----- the tree is the map it stands for -----

  /** What an ordered tree says about its parts. */
  lemma OrderedParts(t: Tree)
    requires t.Node? && Ascending(Contents(t))
    ensures Ascending(Contents(t.left)) && Ascending(Contents(t.right))
    ensures AllBelow(Contents(t.left), t.key) && AllAbove(Contents(t.right), t.key)
    ensures Ascending(Contents(t.left) + [Entry(t.key, t.val)] + Contents(t.right))
  {
    hide Order, Contents;
    Unfold(t);
    AscendingCut(Contents(t.left), Entry(t.key, t.val), Contents(t.right));
  }

  lemma {:induction false} FindRefines(t: Tree, k: Item)
    requires Ascending(Contents(t))
    ensures Find(t, k) == Get(Contents(t), k)
  {
    hide Order, Ascending;
    if t.Node? {
      OrderedParts(t);
      Cut(Contents(t.left), Entry(t.key, t.val), Contents(t.right), k, t.val);
      FindRefines(t.left, k);
      FindRefines(t.right, k);
    }
  }

  /** Inserting keeps the tree a valid dictionary and acts as setting the key. */
  lemma {:induction false} InsertRefines(t: Tree, k: Item, v: Item)
    requires Valid(t)
    ensures Contents(Insert(t, k, v)) == Put(Contents(t), k, v) && Valid(Insert(t, k, v))
  {
    hide Order, Ascending, Balanced;
    PutAscending(Contents(t), k, v);
    if t.Leaf? {
      var none: Entries := [];
      assert none + [Entry(k, v)] + none == [Entry(k, v)];
    } else {
      Parts(t);
      OrderedParts(t);
      Cut(Contents(t.left), Entry(t.key, t.val), Contents(t.right), k, v);
      var c := Order(k, t.key);
      if c < 0 {
        InsertRefines(t.left, k, v);
        InsertedContents(t, Insert(t.left, k, v), t.right);
      } else if c > 0 {
        InsertRefines(t.right, k, v);
        InsertedContents(t, t.left, Insert(t.right, k, v));
      }
    }
  }

  lemma InsertedContents(t: Tree, l: Tree, r: Tree)
    requires t.Node? && Balanced(l) && Balanced(r) && -2 <= HeightOf(r) - HeightOf(l) <= 2
    ensures
      var u := Node(l, t.key, t.val, t.height, r);
      && CanBalance(u) && Contents(u) == Contents(l) + [Entry(t.key, t.val)] + Contents(r)
      && Contents(Balance(u)) == Contents(u)
  {
    hide Balanced, Balance, CanBalance;
    BalanceOk(l, t.key, t.val, t.height, r);
    BalanceContents(Node(l, t.key, t.val, t.height, r));
  }

  /** The largest entry is the last. */
  lemma {:induction false} MaxIsLast(t: Tree) returns (rest: Entries)
    requires t.Node?
    ensures Contents(t) == rest + [GetMax(t)]
  {
    if t.right.Node? {
      var r := MaxIsLast(t.right);
      rest := Contents(t.left) + [Entry(t.key, t.val)] + r;
    } else {
      rest := Contents(t.left);
    }
  }

  /** Removing keeps the tree a valid dictionary, acts as removing the key, and takes out the node
      that held it. */
  lemma {:induction false} RemoveRefines(t: Tree, k: Item)
    requires Valid(t)
    ensures Contents(Remove(t, k).tree) == Del(Contents(t), k) && Valid(Remove(t, k).tree)
    ensures Remove(t, k).node == EntryOf(Contents(t), k)
    decreases Size(t)
  {
    hide Order, Ascending, Balanced, Balance;
    DelAscending(Contents(t), k);
    if t.Node? {
      Parts(t);
      OrderedParts(t);
      var A, x, B := Contents(t.left), Entry(t.key, t.val), Contents(t.right);
      Cut(A, x, B, k, t.val);
      CutEntry(A, x, B, k);
      var c := Order(k, t.key);
      if c < 0 {
        RemoveRefines(t.left, k);
        InsertedContents(t, Remove(t.left, k).tree, t.right);
      } else if c > 0 {
        RemoveRefines(t.right, k);
        InsertedContents(t, t.left, Remove(t.right, k).tree);
      } else {
        RemoveTop(t, k);
      }
    }
  }

  /** The entry that holds a key. */
  function EntryOf(s: Entries, k: Item): Option<Entry> {
    if s == [] then None
    else if Order(k, s[0].key) == 0 then Some(s[0])
    else EntryOf(s[1..], k)
  }

  lemma {:induction false} CutEntry(a: Entries, x: Entry, b: Entries, k: Item)
    requires Ascending(a + [x] + b)
    ensures Order(k, x.key) < 0 ==> EntryOf(a + [x] + b, k) == EntryOf(a, k)
    ensures Order(k, x.key) == 0 ==> EntryOf(a + [x] + b, k) == Some(x)
    ensures Order(k, x.key) > 0 ==> EntryOf(a + [x] + b, k) == EntryOf(b, k)
    decreases |a|
  {
    hide Order, Ascending;
    var s := a + [x] + b;
    AscendingCut(a, x, b);
    if a == [] {
      assert s == [x] + b && s[1..] == b;
      if Order(k, x.key) < 0 {
        forall i | 0 <= i < |b| ensures Order(k, b[i].key) != 0 {
          Flip(b[i].key, x.key);
          Chain(k, x.key, b[i].key);
        }
        NoEntry(b, k);
      }
    } else {
      assert s[0] == a[0] && s[1..] == a[1..] + [x] + b;
      AscendingTail(s);
      CutEntry(a[1..], x, b, k);
      assert Order(a[0].key, x.key) < 0;
      Flip(k, a[0].key);
      Flip(k, x.key);
      Chain(k, a[0].key, x.key);
    }
  }

  lemma {:induction false} NoEntry(s: Entries, k: Item)
    requires forall i :: 0 <= i < |s| ==> Order(k, s[i].key) != 0
    ensures EntryOf(s, k) == None
    decreases |s|
  {
    hide Order;
    if s != [] {
      NoEntry(s[1..], k);
    }
  }

  lemma {:induction false} RemoveTop(t: Tree, k: Item)
    requires Valid(t) && t.Node? && Order(k, t.key) == 0
    ensures Contents(Remove(t, k).tree) == Contents(t.left) + Contents(t.right)
    ensures Remove(t, k).node == Some(Entry(t.key, t.val))
    decreases Size(t), 0
  {
    hide Order, Ascending, Balanced, Balance;
    Parts(t);
    OrderedParts(t);
    if t.left.Leaf? {
      BalanceSame(t.right);
    } else if t.right.Leaf? {
      BalanceSame(t.left);
    } else {
      var m := GetMax(t.left);
      var rest := MaxIsLast(t.left);
      var none: Entries := [];
      assert rest + [m] + none == Contents(t.left);
      SelfOrder(m.key);
      Cut(rest, m, none, m.key, m.val);
      CutEntry(rest, m, none, m.key);
      RemoveRefines(t.left, m.key);
      var s := Remove(t.left, m.key);
      assert rest + none == rest;
      InsertedContents(t.(key := m.key, val := m.val), s.tree, t.right);
    }
  }
}
