/** The nodes of a dictionary's tree as they lie in memory: rotations, insertion and removal relink and
relabel them in place, and compute what the operations on trees say. */
module AvlNodes {
  import opened Compare
  import opened Sorted
  import opened Avl
  import opened Options

  class TreeNode {
    var key: Item
    var data: Item
    var height: int
    var left: TreeNode?
    var right: TreeNode?
    ghost var Repr: set<TreeNode>
    ghost var tree: Tree

    /** The nodes below are a tree without sharing, and tree is its value. */
    ghost predicate Valid()
      reads this, Repr
      decreases Repr
    {
      && this in Repr
      && (left != null ==> left in Repr && left.Repr <= Repr && this !in left.Repr && left.Valid())
      && (right != null ==> right in Repr && right.Repr <= Repr && this !in right.Repr && right.Valid())
      && NodesOf(left) !! NodesOf(right)
      && Repr == {this} + NodesOf(left) + NodesOf(right)
      && tree == Node(TreeOf(left), key, data, height, TreeOf(right))
    }

    constructor (k: Item, v: Item)
      ensures Valid() && fresh(Repr) && tree == Node(Leaf, k, v, 1, Leaf)
    {
      key, data, height, left, right := k, v, 1, null, null;
      Repr := {this};
      tree := Node(Leaf, k, v, 1, Leaf);
    }
  }

  ghost function NodesOf(n: TreeNode?): set<TreeNode>
    reads n
  {
    if n == null then {} else n.Repr
  }

  ghost function TreeOf(n: TreeNode?): Tree
    reads n
  {
    if n == null then Leaf else n.tree
  }

  ghost predicate Good(n: TreeNode?)
    reads n, NodesOf(n)
  {
    n != null ==> n.Valid()
  }

  method HeightAt(n: TreeNode?) returns (h: int)
    requires Good(n)
    ensures h == HeightOf(TreeOf(n))
  {
    h := if n != null then n.height else 0;
  }

  /** The node and its two subtrees share nothing. */
  ghost predicate Apart(n: TreeNode, l: TreeNode?, r: TreeNode?)
    reads l, r
  {
    n !in NodesOf(l) && n !in NodesOf(r) && NodesOf(l) !! NodesOf(r)
  }

  lemma Open(n: TreeNode)
    requires n.Valid()
    ensures Good(n.left) && Good(n.right) && Apart(n, n.left, n.right)
    ensures n.Repr == {n} + NodesOf(n.left) + NodesOf(n.right)
    ensures n.tree == Node(TreeOf(n.left), n.key, n.data, n.height, TreeOf(n.right))
    ensures n.left != null ==> n.left in n.left.Repr
    ensures n.right != null ==> n.right in n.right.Repr
  {}

  /** Hang subtrees under a node and leave its height alone. */
  method Hang(n: TreeNode, l: TreeNode?, r: TreeNode?)
    requires Subtree(l) && Subtree(r) && Apart(n, l, r)
    modifies n
    ensures n.Valid() && n.Repr == {n} + old(NodesOf(l)) + old(NodesOf(r)) && n in n.Repr
    ensures n.tree == Node(old(TreeOf(l)), old(n.key), old(n.data), old(n.height), old(TreeOf(r)))
    ensures n.left == l && n.right == r && n.key == old(n.key) && n.data == old(n.data)
  {
    hide TreeNode.Valid;
    ghost var nodes := {n} + NodesOf(l) + NodesOf(r);
    n.left, n.right := l, r;
    n.Repr := nodes;
    n.tree := Node(TreeOf(l), n.key, n.data, n.height, TreeOf(r));
    assert Good(l) && Good(r);
    Close(n);
  }

  /** Hang two subtrees under a node and fix its height. */
  method Link(n: TreeNode, l: TreeNode?, r: TreeNode?)
    requires Good(l) && Good(r) && Apart(n, l, r)
    requires (l != null ==> l in l.Repr) && (r != null ==> r in r.Repr)
    modifies n
    ensures n.Valid() && n.Repr == {n} + old(NodesOf(l)) + old(NodesOf(r))
    ensures n.tree == Fix(old(TreeOf(l)), old(n.key), old(n.data), old(TreeOf(r)))
    ensures n.left == l && n.right == r && n.key == old(n.key) && n.data == old(n.data) && n in n.Repr
  {
    hide TreeNode.Valid, Max, HeightOf;
    var hl := HeightAt(l);
    var hr := HeightAt(r);
    n.height := 1 + Max(hl, hr);
    Hang(n, l, r);
  }

  /** A node over two separate trees is a tree. */
  lemma Close(n: TreeNode)
    requires Good(n.left) && Good(n.right) && Apart(n, n.left, n.right)
    requires n.left != null ==> n.left in n.left.Repr
    requires n.right != null ==> n.right in n.right.Repr
    requires n.Repr == {n} + NodesOf(n.left) + NodesOf(n.right)
    requires n.tree == Node(TreeOf(n.left), n.key, n.data, n.height, TreeOf(n.right))
    ensures n.Valid()
  {}

  method RotateLeft(a: TreeNode) returns (b: TreeNode)
    requires a.Valid() && a.tree.right.Node?
    modifies a.Repr
    ensures b.Valid() && b in b.Repr && b.Repr == old(a.Repr) && b.tree == RotateLeftSingle(old(a.tree))
  {
    hide TreeNode.Valid, Fix;
    Open(a);
    Open(a.right);
    b := a.right;
    var low, mid, high := a.left, b.left, b.right;
    Link(a, low, mid);
    Link(b, a, high);
  }

  method RotateRight(a: TreeNode) returns (b: TreeNode)
    requires a.Valid() && a.tree.left.Node?
    modifies a.Repr
    ensures b.Valid() && b in b.Repr && b.Repr == old(a.Repr) && b.tree == RotateRightSingle(old(a.tree))
  {
    hide TreeNode.Valid, Fix;
    Open(a);
    Open(a.left);
    b := a.left;
    var low, mid, high := b.left, b.right, a.right;
    Link(a, mid, high);
    Link(b, low, a);
  }

  /** Everything a double rotation touches is separate. */
  ghost predicate Separate(a: TreeNode, b: TreeNode, c: TreeNode, t1: TreeNode?, t2: TreeNode?, t3: TreeNode?, t4: TreeNode?)
    reads t1, t2, t3, t4
  {
    && Apart(a, t1, t2) && Apart(b, t3, t4) && a != b && a != c && b != c
    && a !in NodesOf(t3) + NodesOf(t4) && b !in NodesOf(t1) + NodesOf(t2)
    && c !in NodesOf(t1) + NodesOf(t2) + NodesOf(t3) + NodesOf(t4)
    && (NodesOf(t1) + NodesOf(t2)) !! (NodesOf(t3) + NodesOf(t4))
  }

  ghost predicate Subtree(n: TreeNode?)
    reads n, NodesOf(n)
  {
    Good(n) && (n != null ==> n in n.Repr)
  }

  /** c becomes the parent of a, over t1 and t2, and of b, over t3 and t4. */
  method Spread(a: TreeNode, b: TreeNode, c: TreeNode, t1: TreeNode?, t2: TreeNode?, t3: TreeNode?, t4: TreeNode?)
    requires Subtree(t1) && Subtree(t2) && Subtree(t3) && Subtree(t4) && Separate(a, b, c, t1, t2, t3, t4)
    modifies a, b, c
    ensures c.Valid() && c in c.Repr && c.Repr == {a, b, c} + old(NodesOf(t1) + NodesOf(t2) + NodesOf(t3) + NodesOf(t4))
    ensures c.tree == Fix(Fix(old(TreeOf(t1)), old(a.key), old(a.data), old(TreeOf(t2))), old(c.key), old(c.data),
                          Fix(old(TreeOf(t3)), old(b.key), old(b.data), old(TreeOf(t4))))
  {
    hide TreeNode.Valid, Fix;
    Link(a, t1, t2);
    Link(b, t3, t4);
    Link(c, a, b);
  }

  lemma OpenLeftTwice(a: TreeNode)
    requires a.Valid() && a.tree.right.Node? && a.tree.right.left.Node?
    ensures a.right != null && a.right.left != null
    ensures
      var b := a.right;
      var c := b.left;
      && Subtree(a.left) && Subtree(c.left) && Subtree(c.right) && Subtree(b.right)
      && Separate(a, b, c, a.left, c.left, c.right, b.right)
      && a.Repr == {a, b, c} + (NodesOf(a.left) + NodesOf(c.left) + NodesOf(c.right) + NodesOf(b.right))
      && {a, b, c} <= a.Repr
  {
    hide TreeNode.Valid;
    Open(a);
    var b := a.right;
    Open(b);
    Open(b.left);
  }

  lemma OpenRightTwice(a: TreeNode)
    requires a.Valid() && a.tree.left.Node? && a.tree.left.right.Node?
    ensures a.left != null && a.left.right != null
    ensures
      var b := a.left;
      var c := b.right;
      && Subtree(b.left) && Subtree(c.left) && Subtree(c.right) && Subtree(a.right)
      && Separate(b, a, c, b.left, c.left, c.right, a.right)
      && a.Repr == {b, a, c} + (NodesOf(b.left) + NodesOf(c.left) + NodesOf(c.right) + NodesOf(a.right))
      && {a, b, c} <= a.Repr
  {
    hide TreeNode.Valid;
    Open(a);
    var b := a.left;
    Open(b);
    Open(b.right);
  }

  lemma LeftTwiceTree(a: TreeNode)
    requires a.Valid() && a.right != null && a.right.left != null
    ensures a.tree.Node? && a.tree.right.Node? && a.tree.right.left.Node?
    ensures
      var b, c := a.right, a.right.left;
      RotateLeftDouble(a.tree) == Fix(Fix(TreeOf(a.left), a.key, a.data, TreeOf(c.left)), c.key, c.data,
                                      Fix(TreeOf(c.right), b.key, b.data, TreeOf(b.right)))
  {
    hide Fix, TreeNode.Valid;
    Open(a);
    Open(a.right);
    Open(a.right.left);
  }

  lemma RightTwiceTree(a: TreeNode)
    requires a.Valid() && a.left != null && a.left.right != null
    ensures a.tree.Node? && a.tree.left.Node? && a.tree.left.right.Node?
    ensures
      var b, c := a.left, a.left.right;
      RotateRightDouble(a.tree) == Fix(Fix(TreeOf(b.left), b.key, b.data, TreeOf(c.left)), c.key, c.data,
                                       Fix(TreeOf(c.right), a.key, a.data, TreeOf(a.right)))
  {
    hide Fix, TreeNode.Valid;
    Open(a);
    Open(a.left);
    Open(a.left.right);
  }

  method RotateLeftTwice(a: TreeNode) returns (c: TreeNode)
    requires a.Valid() && a.tree.right.Node? && a.tree.right.left.Node?
    modifies a.Repr
    ensures c.Valid() && c in c.Repr && c.Repr == old(a.Repr) && c.tree == RotateLeftDouble(old(a.tree))
  {
    hide TreeNode.Valid, Fix, Separate, RotateLeftDouble;
    OpenLeftTwice(a);
    LeftTwiceTree(a);
    var b := a.right;
    c := b.left;
    Spread(a, b, c, a.left, c.left, c.right, b.right);
  }

  method RotateRightTwice(a: TreeNode) returns (c: TreeNode)
    requires a.Valid() && a.tree.left.Node? && a.tree.left.right.Node?
    modifies a.Repr
    ensures c.Valid() && c in c.Repr && c.Repr == old(a.Repr) && c.tree == RotateRightDouble(old(a.tree))
  {
    hide TreeNode.Valid, Fix, Separate, RotateRightDouble;
    OpenRightTwice(a);
    RightTwiceTree(a);
    var b := a.left;
    c := b.right;
    Spread(b, a, c, b.left, c.left, c.right, a.right);
  }

  method DiffAt(n: TreeNode?) returns (d: int)
    requires Good(n)
    ensures d == Diff(TreeOf(n))
  {
    d := 0;
    if n != null {
      Open(n);
      var hl := HeightAt(n.left);
      var hr := HeightAt(n.right);
      d := hr - hl;
    }
  }

  method BalanceNode(a: TreeNode) returns (r: TreeNode)
    requires a.Valid() && CanBalance(a.tree)
    modifies a.Repr
    ensures r.Valid() && r in r.Repr && r.Repr == old(a.Repr) && r.tree == Balance(old(a.tree))
  {
    hide TreeNode.Valid, RotateLeftSingle, RotateLeftDouble, RotateRightSingle, RotateRightDouble;
    Open(a);
    var dh := DiffAt(a);
    if -2 < dh < 2 {
      Link(a, a.left, a.right);
      r := a;
    } else if dh == 2 {
      var d := DiffAt(a.right);
      if d >= 0 {
        r := RotateLeft(a);
      } else {
        r := RotateLeftTwice(a);
      }
    } else {
      var d := DiffAt(a.left);
      if d <= 0 {
        r := RotateRight(a);
      } else {
        r := RotateRightTwice(a);
      }
    }
  }

  // ----- insertion and removal -----

  /** array_tree_insert, with the value stored; inserted says whether the node is new, which is when
      every node above it is balanced. */
  method InsertNode(root: TreeNode?, k: Item, v: Item) returns (r: TreeNode, inserted: bool)
    requires Subtree(root) && Balanced(TreeOf(root))
    modifies NodesOf(root)
    ensures r.Valid() && r in r.Repr && fresh(r.Repr - old(NodesOf(root)))
    ensures r.tree == Insert(old(TreeOf(root)), k, v)
    ensures inserted == Find(old(TreeOf(root)), k).None?
    decreases TreeOf(root), 1
  {
    if root == null {
      r := new TreeNode(k, v);
      inserted := true;
      return;
    }
    InsertUnfold(root.tree, k, v);
    hide TreeNode.Valid, Balanced, Order, Insert, Find, Settled, Near;
    var c := Order(k, root.key);
    if c == 0 {
      Relabel(root, root.key, v);
      r, inserted := root, false;
    } else if c > 0 {
      r, inserted := InsertRight(root, k, v);
    } else {
      r, inserted := InsertLeft(root, k, v);
    }
  }

  method InsertRight(root: TreeNode, k: Item, v: Item) returns (r: TreeNode, inserted: bool)
    requires root.Valid() && root in root.Repr && Balanced(root.tree) && Order(k, root.key) > 0
    modifies root.Repr
    ensures r.Valid() && r in r.Repr && fresh(r.Repr - old(root.Repr))
    ensures r.tree == Insert(old(root.tree), k, v)
    ensures inserted == Find(old(root.tree), k).None?
    decreases root.tree, 0
  {
    hide TreeNode.Valid, Balanced, Order, Insert, Find, Settled, Near;
    Open(root);
    Parts(root.tree);
    InsertUnfold(root.tree, k, v);
    var h;
    h, inserted := InsertNode(root.right, k, v);
    r := Settle(root, root.left, h, inserted);
  }

  method InsertLeft(root: TreeNode, k: Item, v: Item) returns (r: TreeNode, inserted: bool)
    requires root.Valid() && root in root.Repr && Balanced(root.tree) && Order(k, root.key) < 0
    modifies root.Repr
    ensures r.Valid() && r in r.Repr && fresh(r.Repr - old(root.Repr))
    ensures r.tree == Insert(old(root.tree), k, v)
    ensures inserted == Find(old(root.tree), k).None?
    decreases root.tree, 0
  {
    hide TreeNode.Valid, Balanced, Order, Insert, Find, Settled, Near;
    Open(root);
    Parts(root.tree);
    InsertUnfold(root.tree, k, v);
    var l;
    l, inserted := InsertNode(root.left, k, v);
    r := Settle(root, l, root.right, inserted);
  }

  lemma InsertUnfold(t: Tree, k: Item, v: Item)
    requires Balanced(t) && t.Node?
    ensures
      var c := Order(k, t.key);
      && (c == 0 ==> Insert(t, k, v) == t.(val := v) && Find(t, k).Some?)
      && (c > 0 ==> Insert(t, k, v) == Settled(t.(right := Insert(t.right, k, v)), Find(t.right, k).None?)
                    && (Find(t, k).None? <==> Find(t.right, k).None?))
      && (c < 0 ==> Insert(t, k, v) == Settled(t.(left := Insert(t.left, k, v)), Find(t.left, k).None?)
                    && (Find(t, k).None? <==> Find(t.left, k).None?))
      && Near(t.left, Insert(t.right, k, v)) && Near(Insert(t.left, k, v), t.right)
  {
    BalanceOk(t.left, t.key, t.val, t.height, Insert(t.right, k, v));
    BalanceOk(Insert(t.left, k, v), t.key, t.val, t.height, t.right);
  }

  ghost predicate Near(l: Tree, r: Tree) {
    Balanced(l) && Balanced(r) && -2 <= HeightOf(r) - HeightOf(l) <= 2
  }

  ghost function Settled(t: Tree, new_: bool): Tree {
    if new_ && CanBalance(t) then Balance(t) else t
  }

  /** Hang the subtrees under the node, and balance it when one of them is new. */
  method Settle(n: TreeNode, l: TreeNode?, h: TreeNode?, new_: bool) returns (r: TreeNode)
    requires Subtree(l) && Subtree(h) && Apart(n, l, h) && Near(TreeOf(l), TreeOf(h))
    modifies {n} + NodesOf(l) + NodesOf(h)
    ensures r.Valid() && r in r.Repr && r.Repr == {n} + old(NodesOf(l)) + old(NodesOf(h))
    ensures r.tree == Settled(Node(old(TreeOf(l)), old(n.key), old(n.data), old(n.height), old(TreeOf(h))), new_)
  {
    hide TreeNode.Valid, Balanced, Balance, CanBalance;
    BalanceOk(TreeOf(l), n.key, n.data, n.height, TreeOf(h));
    Hang(n, l, h);
    r := n;
    if new_ {
      r := BalanceNode(n);
    }
  }

  /** Store a value in a node. */
  method Relabel(n: TreeNode, k: Item, v: Item)
    requires n.Valid()
    modifies n
    ensures n.Valid() && n.Repr == old(n.Repr) && n in n.Repr
    ensures n.tree == old(n.tree).(key := k, val := v)
  {
    hide TreeNode.Valid;
    Open(n);
    n.key, n.data := k, v;
    n.tree := Node(TreeOf(n.left), k, v, n.height, TreeOf(n.right));
    assert Good(n.left) && Good(n.right);
    Close(n);
  }

  /** The key of the rightmost node. */
  method MaxKey(n: TreeNode) returns (k: Item)
    requires n.Valid()
    ensures k == GetMax(n.tree).key
    decreases n.Repr
  {
    Open(n);
    if n.right != null {
      k := MaxKey(n.right);
    } else {
      k := n.key;
    }
  }

  /** What remove_node leaves behind: the tree without the node, and the node, cut off from it. */
  ghost predicate TookOut(nodes: set<TreeNode>, r: TreeNode?, save: TreeNode?, want: Removed)
    reads r, NodesOf(r), save
  {
    && Subtree(r) && NodesOf(r) <= nodes && TreeOf(r) == want.tree
    && (save == null <==> want.node.None?)
    && (save != null ==>
          && save in nodes && save !in NodesOf(r) && save.left == null && save.right == null
          && Entry(save.key, save.data) == want.node.value)
  }

  /** array_tree_remove_node. */
  method RemoveNode(k: Item, root: TreeNode?) returns (r: TreeNode?, save: TreeNode?)
    requires Subtree(root) && Avl.Valid(TreeOf(root))
    modifies NodesOf(root)
    ensures TookOut(old(NodesOf(root)), r, save, Remove(old(TreeOf(root)), k))
    decreases TreeOf(root), 2
  {
    if root == null {
      r, save := null, null;
      return;
    }
    TopKey(root);
    hide TreeNode.Valid, Balanced, Order, Remove, TookOut, Avl.Valid;
    var c := Order(k, root.key);
    if c < 0 {
      r, save := RemoveLeft(k, root);
    } else if c > 0 {
      r, save := RemoveRight(k, root);
    } else {
      r, save := RemoveHere(k, root);
    }
  }

  lemma TopKey(n: TreeNode)
    requires n.Valid()
    ensures n.tree.Node? && n.tree.key == n.key && n.tree.val == n.data
  {}

  /** The subtree that replaces a child is balanced together with the other one. */
  method Resettle(n: TreeNode, l: TreeNode?, h: TreeNode?) returns (r: TreeNode)
    requires Subtree(l) && Subtree(h) && Apart(n, l, h) && Near(TreeOf(l), TreeOf(h))
    modifies {n} + NodesOf(l) + NodesOf(h)
    ensures Subtree(r) && NodesOf(r) == {n} + old(NodesOf(l)) + old(NodesOf(h))
    ensures r.tree == Rebalanced(old(TreeOf(l)), old(n.key), old(n.data), old(TreeOf(h)))
  {
    hide TreeNode.Valid, Balanced, Balance, CanBalance;
    AnyHeight(TreeOf(l), n.key, n.data, n.height, TreeOf(h));
    r := Settle(n, l, h, true);
  }

  /** Balancing does not look at the height the node had. */
  ghost function Rebalanced(l: Tree, k: Item, v: Item, r: Tree): Tree {
    Settled(Node(l, k, v, 0, r), true)
  }

  lemma AnyHeight(l: Tree, k: Item, v: Item, h: int, r: Tree)
    requires Near(l, r)
    ensures Settled(Node(l, k, v, h, r), true) == Rebalanced(l, k, v, r)
  {
    hide Balanced, Fix;
    BalanceOk(l, k, v, h, r);
    BalanceOk(l, k, v, 0, r);
  }

  /** The three ways remove_node goes on. */
  lemma RemoveUnfold(t: Tree, k: Item)
    requires Balanced(t) && t.Node?
    ensures
      var c := Order(k, t.key);
      && (c < 0 ==>
            var s := Remove(t.left, k);
            Near(s.tree, t.right) && Remove(t, k) == Removed(Rebalanced(s.tree, t.key, t.val, t.right), s.node))
      && (c > 0 ==>
            var s := Remove(t.right, k);
            Near(t.left, s.tree) && Remove(t, k) == Removed(Rebalanced(t.left, t.key, t.val, s.tree), s.node))
  {
    hide Balance, CanBalance, Order;
    Parts(t);
    var c := Order(k, t.key);
    if c < 0 {
      var s := Remove(t.left, k);
      BalanceOk(s.tree, t.key, t.val, t.height, t.right);
      AnyHeight(s.tree, t.key, t.val, t.height, t.right);
    } else if c > 0 {
      var s := Remove(t.right, k);
      BalanceOk(t.left, t.key, t.val, t.height, s.tree);
      AnyHeight(t.left, t.key, t.val, t.height, s.tree);
    }
  }

  lemma RemoveTopUnfold(t: Tree, k: Item)
    requires Balanced(t) && t.Node? && Order(k, t.key) == 0
    ensures t.left.Leaf? ==> Remove(t, k) == Removed(t.right, Some(Entry(t.key, t.val)))
    ensures t.left.Node? && t.right.Leaf? ==> Remove(t, k) == Removed(t.left, Some(Entry(t.key, t.val)))
    ensures t.left.Node? && t.right.Node? ==>
              var s := Remove(t.left, GetMax(t.left).key);
              Near(s.tree, t.right) &&
              (s.node.Some? ==>
                 Remove(t, k) == Removed(Rebalanced(s.tree, s.node.value.key, s.node.value.val, t.right), Some(Entry(t.key, t.val))))
  {
    hide Balance, CanBalance, Order;
    Parts(t);
    BalanceSame(t.left);
    BalanceSame(t.right);
    if t.left.Node? && t.right.Node? {
      var s := Remove(t.left, GetMax(t.left).key);
      if s.node.Some? {
        BalanceOk(s.tree, s.node.value.key, s.node.value.val, t.height, t.right);
        AnyHeight(s.tree, s.node.value.key, s.node.value.val, t.height, t.right);
      }
    }
  }

  lemma ValidParts(t: Tree)
    requires Avl.Valid(t) && t.Node?
    ensures Avl.Valid(t.left) && Avl.Valid(t.right) && Balanced(t)
  {
    hide Balanced, Order;
    Parts(t);
    OrderedParts(t);
  }

  /** The largest node of a subtree is there to be removed. */
  lemma MaxFound(t: Tree)
    requires Avl.Valid(t) && t.Node?
    ensures Remove(t, GetMax(t).key).node.Some?
  {
    hide Balanced, Order, Ascending, Remove;
    var m := GetMax(t);
    var rest := MaxIsLast(t);
    var none: Entries := [];
    assert rest + [m] + none == Contents(t);
    SelfOrder(m.key);
    CutEntry(rest, m, none, m.key);
    RemoveRefines(t, m.key);
  }

  /** The node that was taken out is cut off from what remains. */
  method CutOff(n: TreeNode, r: TreeNode?, ghost nodes: set<TreeNode>, ghost want: Removed)
    requires Subtree(r) && NodesOf(r) <= nodes && n in nodes && n !in NodesOf(r)
    requires TreeOf(r) == want.tree && want.node == Some(Entry(n.key, n.data))
    modifies n`left, n`right
    ensures TookOut(nodes, r, n, want)
  {
    hide TreeNode.Valid;
    n.left, n.right := null, null;
  }

  /** The node to remove is the root itself. */
  method RemoveHere(k: Item, root: TreeNode) returns (r: TreeNode?, save: TreeNode?)
    requires Subtree(root) && Avl.Valid(root.tree) && Order(k, root.key) == 0
    modifies root.Repr
    ensures TookOut(old(root.Repr), r, save, Remove(old(root.tree), k))
    decreases root.tree, 1
  {
    Open(root);
    ValidParts(root.tree);
    RemoveTopUnfold(root.tree, k);
    hide TreeNode.Valid, Balanced, Order, Remove, Rebalanced, Near, Avl.Valid, GetMax, TookOut;
    ghost var nodes, want := root.Repr, Remove(root.tree, k);
    save := root;
    if root.left == null {
      r := root.right;
    } else if root.right == null {
      r := root.left;
    } else {
      r := RemoveInner(root);
    }
    CutOff(root, r, nodes, want);
  }

  ghost predicate Inner(t: Tree) {
    && t.Node? && t.left.Node? && t.right.Node? && Balanced(t.left)
    && Near(Remove(t.left, GetMax(t.left).key).tree, t.right)
  }

  /** Both children are there: the largest node on the left takes the root's place. */
  method RemoveInner(root: TreeNode) returns (r: TreeNode)
    requires Subtree(root) && Avl.Valid(root.tree) && Inner(root.tree)
    modifies root.Repr
    ensures Subtree(r) && NodesOf(r) <= old(root.Repr) - {root} && root.key == old(root.key) && root.data == old(root.data)
    ensures
      var t := old(root.tree);
      var s := Remove(t.left, GetMax(t.left).key);
      s.node.Some? && r.tree == Rebalanced(s.tree, s.node.value.key, s.node.value.val, t.right)
    decreases root.tree, 0
  {
    hide TreeNode.Valid, Balanced, Order, Remove, Rebalanced, Near, Avl.Valid, GetMax;
    Open(root);
    ValidParts(root.tree);
    MaxFound(root.tree.left);
    var k := MaxKey(root.left);
    var l, tmp := RemoveNode(k, root.left);
    r := Resettle(tmp, l, root.right);
  }

  method RemoveLeft(k: Item, root: TreeNode) returns (r: TreeNode?, save: TreeNode?)
    requires Subtree(root) && Avl.Valid(root.tree) && Order(k, root.key) < 0
    modifies root.Repr
    ensures TookOut(old(root.Repr), r, save, Remove(old(root.tree), k))
    decreases root.tree, 1
  {
    hide TreeNode.Valid, Balanced, Order, Remove, Rebalanced, Near, Avl.Valid;
    Open(root);
    ValidParts(root.tree);
    RemoveUnfold(root.tree, k);
    var l;
    l, save := RemoveNode(k, root.left);
    r := Resettle(root, l, root.right);
  }

  method RemoveRight(k: Item, root: TreeNode) returns (r: TreeNode?, save: TreeNode?)
    requires Subtree(root) && Avl.Valid(root.tree) && Order(k, root.key) > 0
    modifies root.Repr
    ensures TookOut(old(root.Repr), r, save, Remove(old(root.tree), k))
    decreases root.tree, 1
  {
    hide TreeNode.Valid, Balanced, Order, Remove, Rebalanced, Near, Avl.Valid;
    Open(root);
    ValidParts(root.tree);
    RemoveUnfold(root.tree, k);
    var h;
    h, save := RemoveNode(k, root.right);
    r := Resettle(root, root.left, h);
  }
}
