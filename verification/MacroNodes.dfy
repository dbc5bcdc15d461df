/** The nodes of the macro table as they lie in memory: growing, erasing and killing relink them in
place, and compute what the operations on tables say. */
module MacroNodes {
  import opened Compare
  import opened Sorted
  import opened Macros
  import opened Options

  class MacroNode {
    var name: string
    var def: string
    var left: MacroNode?
    var right: MacroNode?
    ghost var Repr: set<MacroNode>
    ghost var table: Table

    /** The nodes below are a tree without sharing, and table is its value. */
    ghost predicate Valid()
      reads this, Repr
      decreases Repr
    {
      && this in Repr
      && (left != null ==> left in Repr && left.Repr <= Repr && this !in left.Repr && left.Valid())
      && (right != null ==> right in Repr && right.Repr <= Repr && this !in right.Repr && right.Valid())
      && NodesOf(left) !! NodesOf(right)
      && Repr == {this} + NodesOf(left) + NodesOf(right)
      && table == Macro(TableOf(left), name, def, TableOf(right))
    }

    /** new_macro. */
    constructor (n: string, d: string)
      ensures Valid() && fresh(Repr) && table == NewMacro(n, d)
    {
      name, def, left, right := LowerCase(n), d, null, null;
      Repr := {this};
      table := NewMacro(n, d);
    }
  }

  ghost function NodesOf(n: MacroNode?): set<MacroNode>
    reads n
  {
    if n == null then {} else n.Repr
  }

  ghost function TableOf(n: MacroNode?): Table
    reads n
  {
    if n == null then Tip else n.table
  }

  ghost predicate Good(n: MacroNode?)
    reads n, NodesOf(n)
  {
    n != null ==> n.Valid() && n in n.Repr
  }

  /** The node and its two subtrees share nothing. */
  ghost predicate Apart(n: MacroNode, l: MacroNode?, r: MacroNode?)
    reads l, r
  {
    n !in NodesOf(l) && n !in NodesOf(r) && NodesOf(l) !! NodesOf(r)
  }

  lemma Open(n: MacroNode)
    requires n.Valid()
    ensures Good(n.left) && Good(n.right) && Apart(n, n.left, n.right)
    ensures n.Repr == {n} + NodesOf(n.left) + NodesOf(n.right)
    ensures n.table == Macro(TableOf(n.left), n.name, n.def, TableOf(n.right))
  {}

  lemma Close(n: MacroNode)
    requires Good(n.left) && Good(n.right) && Apart(n, n.left, n.right)
    requires n.Repr == {n} + NodesOf(n.left) + NodesOf(n.right)
    requires n.table == Macro(TableOf(n.left), n.name, n.def, TableOf(n.right))
    ensures n.Valid()
  {}

  /** Hang subtrees under a node. */
  method Hang(n: MacroNode, l: MacroNode?, r: MacroNode?)
    requires Good(l) && Good(r) && Apart(n, l, r)
    modifies n
    ensures Good(n) && n.Repr == {n} + old(NodesOf(l)) + old(NodesOf(r))
    ensures n.table == Macro(old(TableOf(l)), old(n.name), old(n.def), old(TableOf(r)))
    ensures n.name == old(n.name) && n.left == l && n.right == r
  {
    hide MacroNode.Valid;
    ghost var nodes := {n} + NodesOf(l) + NodesOf(r);
    n.left, n.right := l, r;
    n.Repr := nodes;
    n.table := Macro(TableOf(l), n.name, n.def, TableOf(r));
    assert Good(l) && Good(r);
    Close(n);
  }

  /** macro_expansion. */
  method MacroExpansion(n: MacroNode?, match_: string) returns (r: Option<string>)
    requires Good(n)
    ensures r == Expand(TableOf(n), match_)
    decreases TableOf(n)
  {
    if n == null {
      return None;
    }
    Open(n);
    var value := StrCmp(match_, n.name, true);
    if value < 0 {
      r := MacroExpansion(n.left, match_);
    } else if value > 0 {
      r := MacroExpansion(n.right, match_);
    } else {
      r := Some(n.def);
    }
  }

  /** grow_macro_tree: the new subtree is linked in where its name belongs. */
  method GrowMacroTree(n: MacroNode, sub: MacroNode) returns (ok: bool)
    requires Good(n) && Good(sub) && n.Repr !! sub.Repr
    modifies n.Repr
    ensures Good(n) && ok == Grow(old(n.table), old(sub.table)).ok && n.table == Grow(old(n.table), old(sub.table)).table
    ensures n.Repr == if ok then old(n.Repr) + sub.Repr else old(n.Repr)
    decreases n.table, 1
  {
    hide MacroNode.Valid, StrCmp, Grow;
    TopName(sub);
    TopName(n);
    GrowUnfold(n.table, sub.table);
    var value := StrCmpExact(sub.name, n.name);
    if value == 0 {
      ok := false;
    } else if value < 0 {
      ok := GrowOnLeft(n, sub);
    } else {
      ok := GrowOnRight(n, sub);
    }
  }

  method GrowOnLeft(n: MacroNode, sub: MacroNode) returns (ok: bool)
    requires Good(n) && Good(sub) && n.Repr !! sub.Repr && n.table.Macro? && sub.table.Macro?
    requires StrCmpExact(sub.table.name, n.table.name) < 0
    modifies n.Repr
    ensures Good(n) && ok == Grow(old(n.table), old(sub.table)).ok && n.table == Grow(old(n.table), old(sub.table)).table
    ensures n.Repr == if ok then old(n.Repr) + sub.Repr else old(n.Repr)
    decreases n.table, 0
  {
    hide MacroNode.Valid, StrCmp, Grow;
    Open(n);
    Top(n.left);
    GrowUnfold(n.table, sub.table);
    var l := sub;
    ok := true;
    if n.left != null {
      l := n.left;
      ok := GrowMacroTree(l, sub);
    }
    Hang(n, l, n.right);
  }

  method GrowOnRight(n: MacroNode, sub: MacroNode) returns (ok: bool)
    requires Good(n) && Good(sub) && n.Repr !! sub.Repr && n.table.Macro? && sub.table.Macro?
    requires StrCmpExact(sub.table.name, n.table.name) > 0
    modifies n.Repr
    ensures Good(n) && ok == Grow(old(n.table), old(sub.table)).ok && n.table == Grow(old(n.table), old(sub.table)).table
    ensures n.Repr == if ok then old(n.Repr) + sub.Repr else old(n.Repr)
    decreases n.table, 0
  {
    hide MacroNode.Valid, StrCmp, Grow;
    Open(n);
    Top(n.right);
    GrowUnfold(n.table, sub.table);
    var r := sub;
    ok := true;
    if n.right != null {
      r := n.right;
      ok := GrowMacroTree(r, sub);
    }
    Hang(n, n.left, r);
  }

  lemma TopName(n: MacroNode)
    requires n.Valid()
    ensures n.table.Macro? && n.table.name == n.name
  {}

  lemma GrowUnfold(t: Table, sub: Table)
    requires t.Macro? && sub.Macro?
    ensures
      var c := StrCmpExact(sub.name, t.name);
      && (c == 0 ==> Grow(t, sub) == Grown(t, false))
      && (c < 0 && t.left.Tip? ==> Grow(t, sub) == Grown(t.(left := sub), true))
      && (c < 0 && t.left.Macro? ==> Grow(t, sub) == Grown(t.(left := Grow(t.left, sub).table), Grow(t.left, sub).ok))
      && (c > 0 && t.right.Tip? ==> Grow(t, sub) == Grown(t.(right := sub), true))
      && (c > 0 && t.right.Macro? ==> Grow(t, sub) == Grown(t.(right := Grow(t.right, sub).table), Grow(t.right, sub).ok))
  {}

  /** insert_macro. */
  method InsertMacroNode(top: MacroNode?, name: string, def: string) returns (r: MacroNode, ok: bool)
    requires Good(top)
    modifies NodesOf(top)
    ensures Good(r) && r.table == InsertMacro(old(TableOf(top)), name, def).table
    ensures ok == InsertMacro(old(TableOf(top)), name, def).ok
    ensures fresh(r.Repr - old(NodesOf(top)))
  {
    hide MacroNode.Valid, Grow, LowerCase;
    var n := new MacroNode(name, def);
    TopName2(n);
    if top == null {
      r, ok := n, true;
    } else {
      TopName(top);
      ok := GrowMacroTree(top, n);
      r := top;
    }
  }

  lemma TopName2(n: MacroNode)
    requires n.Valid()
    ensures n in n.Repr
  {}

  /** What erase_node leaves below a node: the table without the macro and without the orphan. */
  ghost predicate Apiece(nodes: set<MacroNode>, n: MacroNode, orphan: MacroNode?, found: bool, want: Erased)
    reads n, n.Repr, orphan, NodesOf(orphan)
  {
    && Good(n) && Good(orphan) && n.Repr !! NodesOf(orphan) && n.Repr + NodesOf(orphan) <= nodes
    && n.table == want.table && TableOf(orphan) == want.orphan && found == want.found
  }

  lemma EraseUnfold(t: Table, name: string)
    requires t.Macro?
    ensures
      var c := StrCmpExact(name, t.name);
      && (c < 0 && t.left.Tip? ==> Erase(t, name) == Erased(t, Tip, false))
      && (c < 0 && t.left.Macro? && StrCmpExact(name, t.left.name) == 0 ==>
            Erase(t, name) == Erased(t.(left := t.left.left), t.left.right, true))
      && (c < 0 && t.left.Macro? && StrCmpExact(name, t.left.name) != 0 ==>
            Erase(t, name) == Erased(t.(left := Erase(t.left, name).table), Erase(t.left, name).orphan, Erase(t.left, name).found))
      && (c >= 0 && t.right.Tip? ==> Erase(t, name) == Erased(t, Tip, false))
      && (c >= 0 && t.right.Macro? && StrCmpExact(name, t.right.name) == 0 ==>
            Erase(t, name) == Erased(t.(right := t.right.right), t.right.left, true))
      && (c >= 0 && t.right.Macro? && StrCmpExact(name, t.right.name) != 0 ==>
            Erase(t, name) == Erased(t.(right := Erase(t.right, name).table), Erase(t.right, name).orphan, Erase(t.right, name).found))
  {}

  /** erase_node, from a node that is not the one to erase. */
  method EraseNode(n: MacroNode, name: string) returns (orphan: MacroNode?, found: bool)
    requires Good(n)
    modifies n.Repr
    ensures Apiece(old(n.Repr), n, orphan, found, Erase(old(n.table), name))
    decreases n.table, 1
  {
    hide MacroNode.Valid, StrCmp, Erase, Apiece;
    TopName(n);
    if StrCmpExact(name, n.name) < 0 {
      orphan, found := EraseOnLeft(n, name);
    } else {
      orphan, found := EraseOnRight(n, name);
    }
  }

  /** The left child goes: its left subtree takes its place, its right subtree is left over. */
  method UnlinkLeft(n: MacroNode, m: MacroNode) returns (orphan: MacroNode?)
    requires Good(n) && n.left == m && n.table.Macro? && n.table.left.Macro?
    modifies n
    ensures old(n.table).Macro? && old(n.table).left.Macro?
    ensures
      var t := old(n.table);
      Apiece(old(n.Repr), n, orphan, true, Erased(t.(left := t.left.left), t.left.right, true))
  {
    hide MacroNode.Valid;
    Open(n);
    Open(m);
    orphan := m.right;
    Hang(n, m.left, n.right);
  }

  /** The right child goes: its right subtree takes its place, its left subtree is left over. */
  method UnlinkRight(n: MacroNode, m: MacroNode) returns (orphan: MacroNode?)
    requires Good(n) && n.right == m && n.table.Macro? && n.table.right.Macro?
    modifies n
    ensures old(n.table).Macro? && old(n.table).right.Macro?
    ensures
      var t := old(n.table);
      Apiece(old(n.Repr), n, orphan, true, Erased(t.(right := t.right.right), t.right.left, true))
  {
    hide MacroNode.Valid;
    Open(n);
    Open(m);
    orphan := m.left;
    Hang(n, n.left, m.right);
  }

  method EraseOnLeft(n: MacroNode, name: string) returns (orphan: MacroNode?, found: bool)
    requires Good(n) && StrCmpExact(name, n.name) < 0
    modifies n.Repr
    ensures Apiece(old(n.Repr), n, orphan, found, Erase(old(n.table), name))
    decreases n.table, 0
  {
    hide MacroNode.Valid, StrCmp, Erase;
    Open(n);
    EraseUnfold(n.table, name);
    if n.left == null {
      orphan, found := null, false;
      return;
    }
    var m := n.left;
    TopName(m);
    if StrCmpExact(name, m.name) == 0 {
      orphan := UnlinkLeft(n, m);
      found := true;
    } else {
      orphan, found := EraseNode(m, name);
      Hang(n, m, n.right);
    }
  }

  method EraseOnRight(n: MacroNode, name: string) returns (orphan: MacroNode?, found: bool)
    requires Good(n) && StrCmpExact(name, n.name) >= 0
    modifies n.Repr
    ensures Apiece(old(n.Repr), n, orphan, found, Erase(old(n.table), name))
    decreases n.table, 0
  {
    hide MacroNode.Valid, StrCmp, Erase;
    Open(n);
    EraseUnfold(n.table, name);
    if n.right == null {
      orphan, found := null, false;
      return;
    }
    var m := n.right;
    TopName(m);
    if StrCmpExact(name, m.name) == 0 {
      orphan := UnlinkRight(n, m);
      found := true;
    } else {
      orphan, found := EraseNode(m, name);
      Hang(n, n.left, m);
    }
  }

  lemma KillUnfold(t: Table, name: string)
    requires t.Macro?
    ensures
      var g := KillMacro(t, name);
      && (StrCmp(name, t.name, true) == 0 ==>
            && g.ok
            && (t.left.Tip? ==> g.table == t.right)
            && (t.left.Macro? && t.right.Tip? ==> g.table == t.left)
            && (t.left.Macro? && t.right.Macro? ==> g.table == Grow(t.left, t.right).table))
      && (StrCmp(name, t.name, true) != 0 ==> g.ok == Erase(t, name).found)
  {}

  lemma ErasedUnfold(t: Table, name: string)
    requires t.Macro? && StrCmp(name, t.name, true) != 0
    ensures Erase(t, name).table.Macro?
    ensures
      var g, e := KillMacro(t, name), Erase(t, name);
      && (!e.found ==> g.table == t)
      && (e.found && e.orphan.Tip? ==> g.table == e.table)
      && (e.found && e.orphan.Macro? ==> g.table == Grow(e.table, e.orphan).table)
  {}

  lemma {:induction false} NotErased(t: Table, name: string)
    requires t.Macro? && !Erase(t, name).found
    ensures Erase(t, name).table == t && Erase(t, name).orphan == Tip
    decreases t
  {
    hide StrCmp;
    if StrCmpExact(name, t.name) < 0 {
      if t.left.Macro? && StrCmpExact(name, t.left.name) != 0 {
        NotErased(t.left, name);
      }
    } else if t.right.Macro? && StrCmpExact(name, t.right.name) != 0 {
      NotErased(t.right, name);
    }
  }

  lemma Top(n: MacroNode?)
    requires Good(n)
    ensures n == null <==> TableOf(n).Tip?
  {}

  /** kill_macro. */
  method KillMacroNode(top: MacroNode?, name: string) returns (r: MacroNode?, ok: bool)
    requires Good(top)
    modifies NodesOf(top)
    ensures Good(r) && NodesOf(r) <= old(NodesOf(top))
    ensures TableOf(r) == KillMacro(old(TableOf(top)), name).table && ok == KillMacro(old(TableOf(top)), name).ok
  {
    if top == null {
      return null, false;
    }
    TopName(top);
    KillUnfold(top.table, name);
    hide MacroNode.Valid, StrCmp, Erase, Grow, KillMacro, Apiece;
    if StrCmp(name, top.name, true) == 0 {
      r := KillRootNode(top);
      ok := true;
    } else {
      r, ok := KillBelow(top, name);
    }
  }

  method KillRootNode(top: MacroNode) returns (r: MacroNode?)
    requires Good(top)
    modifies top.Repr
    ensures Good(r) && NodesOf(r) <= old(top.Repr)
    ensures old(top.table).Macro? && TableOf(r) ==
      (var t := old(top.table);
       if t.left.Tip? then t.right else if t.right.Tip? then t.left else Grow(t.left, t.right).table)
  {
    hide MacroNode.Valid, StrCmp, Grow;
    Open(top);
    Top(top.left);
    Top(top.right);
    if top.left == null {
      return top.right;
    }
    r := top.left;
    if top.right != null {
      var _ := GrowMacroTree(top.left, top.right);
    }
  }

  method KillBelow(top: MacroNode, name: string) returns (r: MacroNode, ok: bool)
    requires Good(top) && top.table.Macro? && StrCmp(name, top.table.name, true) != 0
    modifies top.Repr
    ensures Good(r) && r.Repr <= old(top.Repr)
    ensures r.table == KillMacro(old(top.table), name).table && ok == Erase(old(top.table), name).found
  {
    hide MacroNode.Valid, StrCmp, Erase, Grow, KillMacro;
    ErasedUnfold(top.table, name);
    if !Erase(top.table, name).found {
      NotErased(top.table, name);
    }
    var orphan;
    orphan, ok := EraseNode(top, name);
    r := top;
    Top(orphan);
    if ok && orphan != null {
      var _ := GrowMacroTree(top, orphan);
    }
  }
}
