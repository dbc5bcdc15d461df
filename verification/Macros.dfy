/** The macro table: a search tree without balancing. Killing a macro grafts one of its subtrees back in
from the root. */
module Macros {
  import opened Compare
  import opened Sorted
  import opened Options

  datatype Table = Tip | Macro(left: Table, name: string, def: string, right: Table)

  /** A macro's name is stored in lower case. */
  function LowerCase(s: string): (r: string)
    ensures |r| == |s| && IsLower(r)
  {
    if s == "" then "" else
      LowerTwice(s[0]);
      [Lower(s[0])] + LowerCase(s[1..])
  }

  /** No capital letter up to the end C sees. */
  predicate IsLower(s: string) {
    Head(s, false) != 0 ==> Lower(s[0]) == s[0] && IsLower(s[1..])
  }

  lemma {:induction false} LowerAgain(s: string)
    ensures LowerCase(LowerCase(s)) == LowerCase(s)
    decreases |s|
  {
    if s != "" {
      LowerTwice(s[0]);
      assert LowerCase(s)[1..] == LowerCase(s[1..]);
      LowerAgain(s[1..]);
    }
  }

  lemma LowerTwice(c: char)
    ensures Lower(Lower(c)) == Lower(c)
  {}

  function Key(name: string): Item {
    Item.Str(name)
  }

  function StrCmpExact(a: string, b: string): int {
    StrCmp(a, b, false)
  }

  function Contents(t: Table): Entries {
    if t.Tip? then [] else Contents(t.left) + [Entry(Key(t.name), Key(t.def))] + Contents(t.right)
  }

  ghost predicate AllLower(t: Table) {
    t.Macro? ==> LowerCase(t.name) == t.name && AllLower(t.left) && AllLower(t.right)
  }

  ghost predicate Valid(t: Table) {
    AllLower(t) && Ascending(Contents(t))
  }

  // ----- operations -----

  function Expand(t: Table, name: string): Option<string> {
    if t.Tip? then None
    else
      var c := StrCmp(name, t.name, true);
      if c < 0 then Expand(t.left, name) else if c > 0 then Expand(t.right, name) else Some(t.def)
  }

  function NewMacro(name: string, def: string): Table {
    Macro(Tip, LowerCase(name), def, Tip)
  }

  /** grow_macro_tree: hang a whole subtree where its root's name belongs. False when the name is taken. */
  datatype Grown = Grown(table: Table, ok: bool)

  function Grow(t: Table, sub: Table): Grown
    requires t.Macro? && sub.Macro?
  {
    var c := StrCmpExact(sub.name, t.name);
    if c == 0 then Grown(t, false)
    else if c < 0 then
      if t.left.Tip? then Grown(t.(left := sub), true)
      else
        var g := Grow(t.left, sub);
        Grown(t.(left := g.table), g.ok)
    else
      if t.right.Tip? then Grown(t.(right := sub), true)
      else
        var g := Grow(t.right, sub);
        Grown(t.(right := g.table), g.ok)
  }

  function InsertMacro(t: Table, name: string, def: string): Grown {
    if t.Tip? then Grown(NewMacro(name, def), true) else Grow(t, NewMacro(name, def))
  }

  /** What erase_node does below the root: the parent takes over one subtree of the erased node, and the
      other is an orphan. */
  datatype Erased = Erased(table: Table, orphan: Table, found: bool)

  function Erase(t: Table, name: string): Erased
    requires t.Macro?
  {
    if StrCmpExact(name, t.name) < 0 then
      if t.left.Tip? then Erased(t, Tip, false)
      else if StrCmpExact(name, t.left.name) == 0 then Erased(t.(left := t.left.left), t.left.right, true)
      else
        var e := Erase(t.left, name);
        Erased(t.(left := e.table), e.orphan, e.found)
    else
      if t.right.Tip? then Erased(t, Tip, false)
      else if StrCmpExact(name, t.right.name) == 0 then Erased(t.(right := t.right.right), t.right.left, true)
      else
        var e := Erase(t.right, name);
        Erased(t.(right := e.table), e.orphan, e.found)
  }

  function Graft(t: Table, orphan: Table): Table {
    if orphan.Tip? || t.Tip? then t else Grow(t, orphan).table
  }

  function KillMacro(t: Table, name: string): Grown {
    if t.Tip? then Grown(Tip, false)
    else if StrCmp(name, t.name, true) == 0 then
      if t.left.Macro? then Grown(Graft(t.left, t.right), true)
      else Grown(t.right, true)
    else
      var e := Erase(t, name);
      if e.found then Grown(Graft(e.table, e.orphan), true) else Grown(t, false)
  }

  // ----- names in lower case -----

  lemma {:induction false} FoldLower(a: string, b: string)
    requires IsLower(a) && IsLower(b)
    ensures StrCmp(a, b, false) == StrCmp(a, b, true)
    decreases |a|
  {
    if Head(a, true) != 0 && Head(a, true) == Head(b, true) {
      FoldLower(a[1..], b[1..]);
    }
  }

  /** Folding looks only at the lower case of a string. */
  lemma {:induction false} FoldCase(a: string, b: string)
    ensures StrCmp(LowerCase(a), b, true) == StrCmp(a, b, true)
    decreases |a|
  {
    if a != "" {
      LowerTwice(a[0]);
      assert LowerCase(a)[0] == Lower(a[0]) && LowerCase(a)[1..] == LowerCase(a[1..]);
      if Head(a, true) != 0 && Head(a, true) == Head(b, true) {
        FoldCase(a[1..], b[1..]);
      }
    }
  }

  lemma OrderIs(a: string, b: string)
    ensures Order(Key(a), Key(b)) == StrCmp(a, b, true)
  {}

  lemma Parts(t: Table)
    requires Valid(t) && t.Macro?
    ensures Valid(t.left) && Valid(t.right) && IsLower(t.name)
    ensures AllBelow(Contents(t.left), Key(t.name)) && AllAbove(Contents(t.right), Key(t.name))
  {
    hide Order;
    AscendingCut(Contents(t.left), Entry(Key(t.name), Key(t.def)), Contents(t.right));
  }

  // ----- lookup and insertion -----

  /** Looking a macro up, in any case, finds what the table maps its name to. */
  lemma {:induction false} ExpandRefines(t: Table, name: string)
    requires Valid(t)
    ensures Get(Contents(t), Key(name)) == if Expand(t, name).Some? then Some(Key(Expand(t, name).value)) else None
  {
    hide Order, StrCmp, Ascending;
    if t.Macro? {
      Parts(t);
      OrderIs(name, t.name);
      Cut(Contents(t.left), Entry(Key(t.name), Key(t.def)), Contents(t.right), Key(name), Key(name));
      ExpandRefines(t.left, name);
      ExpandRefines(t.right, name);
    }
  }

  /** The subtree fits between the entries before i and those from i on. */
  ghost predicate Fits(s: Entries, u: Entries, i: nat) {
    && i <= |s|
    && (forall j, m :: 0 <= j < i && 0 <= m < |u| ==> Order(s[j].key, u[m].key) < 0)
    && (forall j, m :: i <= j < |s| && 0 <= m < |u| ==> Order(s[j].key, u[m].key) > 0)
  }

  /** A subtree that fits before the root's entry has the smaller root, and one that fits behind it the greater. */
  lemma {:induction false} RootFits(t: Table, sub: Table, i: nat)
    requires t.Macro? && sub.Macro? && IsLower(t.name) && IsLower(sub.name) && Fits(Contents(t), Contents(sub), i)
    ensures i <= |Contents(t)|
    ensures if i <= |Contents(t.left)| then StrCmpExact(sub.name, t.name) < 0 else StrCmpExact(sub.name, t.name) > 0
  {
    hide Order, StrCmp;
    var s, u, n, r := Contents(t), Contents(sub), |Contents(t.left)|, |Contents(sub.left)|;
    assert u[r].key == Key(sub.name) && s[n].key == Key(t.name);
    FoldLower(sub.name, t.name);
    OrderIs(sub.name, t.name);
    Flip(s[n].key, u[r].key);
  }

  /** Growing a table by a subtree that fits somewhere puts it exactly there. */
  lemma {:induction false} GrowRefines(t: Table, sub: Table, i: nat)
    requires t.Macro? && sub.Macro? && Valid(t) && AllLower(sub)
    requires Fits(Contents(t), Contents(sub), i)
    ensures
      var g := Grow(t, sub);
      g.ok && g.table.Macro? && Contents(g.table) == Contents(t)[..i] + Contents(sub) + Contents(t)[i..] && AllLower(g.table)
    decreases t
  {
    hide Order, StrCmp, Ascending, Fits, StrCmpExact, IsLower, LowerCase;
    Parts(t);
    RootLower(sub);
    var A, x, B, u := Contents(t.left), Entry(Key(t.name), Key(t.def)), Contents(t.right), Contents(sub);
    RootFits(t, sub, i);
    if i <= |A| {
      FitsLeft(A, x, B, u, i);
      if t.left.Macro? {
        GrowRefines(t.left, sub, i);
      }
      LeftGrown(A, x, B, u, i);
    } else {
      FitsRight(A, x, B, u, i);
      if t.right.Macro? {
        GrowRefines(t.right, sub, i - |A| - 1);
      }
      RightGrown(A, x, B, u, i);
    }
  }

  lemma RootLower(t: Table)
    requires t.Macro? && AllLower(t)
    ensures IsLower(t.name)
  {}

  lemma FitsLeft(a: Entries, x: Entry, b: Entries, u: Entries, i: nat)
    requires Fits(a + [x] + b, u, i) && i <= |a|
    ensures Fits(a, u, i)
  {
    hide Order;
    var s := a + [x] + b;
    assert forall j :: 0 <= j < |a| ==> s[j] == a[j];
  }

  lemma FitsRight(a: Entries, x: Entry, b: Entries, u: Entries, i: nat)
    requires Fits(a + [x] + b, u, i) && |a| < i
    ensures Fits(b, u, i - |a| - 1)
  {
    hide Order;
    var s := a + [x] + b;
    assert forall j :: 0 <= j < |b| ==> s[|a| + 1 + j] == b[j];
  }

  lemma LeftGrown(a: Entries, x: Entry, b: Entries, u: Entries, i: nat)
    requires i <= |a|
    ensures (a[..i] + u + a[i..]) + [x] + b == (a + [x] + b)[..i] + u + (a + [x] + b)[i..]
  {
    var s := a + [x] + b;
    assert s[..i] == a[..i] && s[i..] == a[i..] + [x] + b;
  }

  lemma RightGrown(a: Entries, x: Entry, b: Entries, u: Entries, i: nat)
    requires |a| < i <= |a| + 1 + |b|
    ensures
      var k := i - |a| - 1;
      a + [x] + (b[..k] + u + b[k..]) == (a + [x] + b)[..i] + u + (a + [x] + b)[i..]
  {
    var s, k := a + [x] + b, i - |a| - 1;
    assert s[..i] == a + [x] + b[..k] && s[i..] == b[k..];
  }

  /** Where a key that is not there would go. */
  lemma {:induction false} Slot(s: Entries, k: Item, v: Item) returns (i: nat)
    requires Ascending(s) && Get(s, k).None?
    ensures Fits(s, [Entry(k, v)], i) && Put(s, k, v) == s[..i] + [Entry(k, v)] + s[i..]
    decreases |s|
  {
    hide Order;
    if s == [] {
      i := 0;
    } else if Order(k, s[0].key) < 0 {
      i := 0;
      HeadLess(s);
      forall j | 0 <= j < |s| ensures Order(s[j].key, k) > 0 {
        if j > 0 {
          Chain(k, s[0].key, s[j].key);
        }
        Flip(k, s[j].key);
      }
      assert s[..0] + [Entry(k, v)] + s[0..] == [Entry(k, v)] + s;
    } else {
      var r := Slot(s[1..], k, v);
      i := r + 1;
      Flip(k, s[0].key);
      assert forall j :: 0 < j < |s| ==> s[j] == s[1..][j - 1];
      SlotShift(s, r, Entry(k, v));
    }
  }

  lemma SlotShift(s: Entries, r: nat, e: Entry)
    requires s != [] && r < |s|
    ensures [s[0]] + (s[1..][..r] + [e] + s[1..][r..]) == s[..r + 1] + [e] + s[r + 1..]
  {}

  /** Growing by a name that is taken changes nothing. */
  lemma {:induction false} GrowTaken(t: Table, sub: Table)
    requires t.Macro? && sub.Macro? && Valid(t) && IsLower(sub.name)
    requires Get(Contents(t), Key(sub.name)).Some?
    ensures Grow(t, sub) == Grown(t, false)
    decreases t
  {
    hide Order, StrCmp, Ascending;
    Parts(t);
    FoldLower(sub.name, t.name);
    OrderIs(sub.name, t.name);
    Cut(Contents(t.left), Entry(Key(t.name), Key(t.def)), Contents(t.right), Key(sub.name), Key(sub.name));
    if StrCmpExact(sub.name, t.name) < 0 {
      GrowTaken(t.left, sub);
    } else if StrCmpExact(sub.name, t.name) > 0 {
      GrowTaken(t.right, sub);
    }
  }

  /** insert_macro enters a new name, in lower case, and refuses one that is there. */
  lemma InsertRefines(t: Table, name: string, def: string)
    requires Valid(t)
    ensures
      var g, k := InsertMacro(t, name, def), Key(LowerCase(name));
      && Valid(g.table) && (g.ok <==> Get(Contents(t), k).None?)
      && Contents(g.table) == if g.ok then Put(Contents(t), k, Key(def)) else Contents(t)
  {
    hide Order, StrCmp, Ascending;
    var n := NewMacro(name, def);
    var k := Key(LowerCase(name));
    var none: Entries := [];
    assert Contents(n) == [Entry(k, Key(def))] by { assert none + [Entry(k, Key(def))] + none == [Entry(k, Key(def))]; }
    PutAscending(Contents(t), k, Key(def));
    LowerAgain(name);
    if t.Macro? {
      if Get(Contents(t), k).Some? {
        GrowTaken(t, n);
      } else {
        var i := Slot(Contents(t), k, Key(def));
        GrowRefines(t, n, i);
      }
    }
  }

  /** A macro is found under its name in any case. */
  lemma {:induction false} ExpandFolds(t: Table, name: string, again: string)
    requires AllButForCase(name, again)
    ensures Expand(t, again) == Expand(t, name)
    decreases t
  {
    hide StrCmp, AllButForCase;
    if t.Macro? {
      FoldsAlike(name, again, t.name);
      ExpandFolds(t.left, name, again);
      ExpandFolds(t.right, name, again);
    }
  }

  lemma {:induction false} LowerButForCase(name: string)
    ensures AllButForCase(name, LowerCase(name))
    decreases |name|
  {
    hide Lower, ButForCase;
    if name != "" {
      LowerButForCase(name[1..]);
      LowerTwice(name[0]);
      LowerIff(name[0], Lower(name[0]));
      assert forall i :: 0 < i < |name| ==> name[i] == name[1..][i - 1] && LowerCase(name)[i] == LowerCase(name[1..])[i - 1];
    }
  }

  /** After a macro has been entered its definition is found, under its name in any case. */
  lemma EnteredFound(t: Table, name: string, def: string, again: string)
    requires Valid(t) && InsertMacro(t, name, def).ok && AllButForCase(name, again)
    ensures Expand(InsertMacro(t, name, def).table, again) == Some(def)
  {
    hide Order, StrCmp, Ascending, InsertMacro, Put, Get, AllButForCase, AllLower;
    var u, low := InsertMacro(t, name, def).table, LowerCase(name);
    InsertRefines(t, name, def);
    GetPut(Contents(t), Key(low), Key(def), Key(low));
    SelfOrder(Key(low));
    ExpandRefines(u, low);
    LowerButForCase(name);
    ExpandFolds(u, name, low);
    ExpandFolds(u, name, again);
  }

  // ----- killing a macro -----

  lemma FitsFromOrder(a: Entries, u: Entries, b: Entries)
    requires Ascending(a + u + b)
    ensures Fits(a + b, u, |a|) && Ascending(a + b) && (a + b)[..|a|] == a && (a + b)[|a|..] == b
  {
    hide Order;
    var s, c := a + u + b, a + b;
    forall j, m | 0 <= j < |a| && 0 <= m < |u| ensures Order(c[j].key, u[m].key) < 0 {
      assert s[j] == c[j] && s[|a| + m] == u[m];
    }
    forall j, m | |a| <= j < |c| && 0 <= m < |u| ensures Order(c[j].key, u[m].key) > 0 {
      assert s[|u| + j] == c[j] && s[|a| + m] == u[m];
      Flip(u[m].key, c[j].key);
    }
    forall j, m | 0 <= j < m < |c| ensures Order(c[j].key, c[m].key) < 0 {
      assert s[if j < |a| then j else j + |u|] == c[j] && s[if m < |a| then m else m + |u|] == c[m];
    }
  }

  /** What erase_node leaves: the table without the macro and without its orphan, and the orphan's place. */
  ghost predicate Splits(t: Table, name: string, e: Erased, i: nat) {
    && AllLower(e.table) && e.table.Macro? && AllLower(e.orphan)
    && (e.found <==> Get(Contents(t), Key(name)).Some?)
    && (!e.found ==> e.table == t)
    && (e.found ==>
          && i <= |Contents(e.table)|
          && Del(Contents(t), Key(name)) == Contents(e.table)[..i] + Contents(e.orphan) + Contents(e.table)[i..])
  }

  lemma {:induction false} EraseRefines(t: Table, name: string) returns (i: nat)
    requires Valid(t) && t.Macro? && IsLower(name) && StrCmp(name, t.name, true) != 0
    ensures Splits(t, name, Erase(t, name), i)
    decreases t
  {
    hide Order, StrCmp, Ascending, Get, Del, Contents;
    Unfold(t);
    Parts(t);
    FoldLower(name, t.name);
    OrderIs(name, t.name);
    var A, x, B, k := Contents(t.left), Entry(Key(t.name), Key(t.def)), Contents(t.right), Key(name);
    Cut(A, x, B, k, k);
    var e := Erase(t, name);
    Unfold(e.table);
    i := 0;
    if StrCmpExact(name, t.name) < 0 {
      if t.left.Tip? {
        EmptyContents(k);
      } else if StrCmpExact(name, t.left.name) == 0 {
        i := EraseLeft(t, name);
      } else {
        Parts(t.left);
        FoldLower(name, t.left.name);
        var r := EraseRefines(t.left, name);
        i := r;
        if e.found {
          var l := Erase(t.left, name);
          var C := Contents(l.table);
          LeftGrown(C, x, B, Contents(e.orphan), i);
        }
      }
    } else {
      if t.right.Tip? {
        EmptyContents(k);
      } else if StrCmpExact(name, t.right.name) == 0 {
        i := EraseRight(t, name);
      } else {
        Parts(t.right);
        FoldLower(name, t.right.name);
        var r := EraseRefines(t.right, name);
        i := |A| + 1 + r;
        if e.found {
          var C := Contents(Erase(t.right, name).table);
          RightGrown(A, x, C, Contents(e.orphan), i);
        }
      }
    }
  }

  lemma Unfold(t: Table)
    requires t.Macro?
    ensures Contents(t) == Contents(t.left) + [Entry(Key(t.name), Key(t.def))] + Contents(t.right)
  {}

  lemma EmptyContents(k: Item)
    ensures Contents(Tip) == [] && Get([], k) == None
  {}

  /** The left child is the one to go: its left subtree moves up, its right subtree is the orphan. */
  lemma EraseLeft(t: Table, name: string) returns (i: nat)
    requires Valid(t) && t.Macro? && t.left.Macro? && IsLower(name)
    requires StrCmpExact(name, t.name) < 0 && StrCmpExact(name, t.left.name) == 0
    ensures Splits(t, name, Erase(t, name), i)
  {
    hide Order, StrCmp, Ascending, Get, Del, Contents, LowerCase, IsLower;
    Parts(t);
    Parts(t.left);
    Unfold(t);
    Unfold(t.left);
    var n := t.left;
    FoldLower(name, t.name);
    FoldLower(name, n.name);
    OrderIs(name, t.name);
    OrderIs(name, n.name);
    var A, x, B, k := Contents(n), Entry(Key(t.name), Key(t.def)), Contents(t.right), Key(name);
    var L, y, R := Contents(n.left), Entry(Key(n.name), Key(n.def)), Contents(n.right);
    Cut(A, x, B, k, k);
    Cut(L, y, R, k, k);
    Unfold(Erase(t, name).table);
    i := |L|;
    Around(L, R, [x], B);
  }

  lemma Around(a: Entries, u: Entries, x: Entries, b: Entries)
    ensures (a + x + b)[..|a|] == a && (a + x + b)[|a|..] == x + b
    ensures (a + u) + x + b == a + u + (x + b)
  {}

  lemma EraseRight(t: Table, name: string) returns (i: nat)
    requires Valid(t) && t.Macro? && t.right.Macro? && IsLower(name)
    requires StrCmpExact(name, t.name) > 0 && StrCmpExact(name, t.right.name) == 0
    ensures Splits(t, name, Erase(t, name), i)
  {
    hide Order, StrCmp, Ascending, Get, Del, Contents, LowerCase, IsLower;
    Parts(t);
    Parts(t.right);
    Unfold(t);
    Unfold(t.right);
    var n := t.right;
    FoldLower(name, t.name);
    FoldLower(name, n.name);
    OrderIs(name, t.name);
    OrderIs(name, n.name);
    var A, x, B, k := Contents(t.left), Entry(Key(t.name), Key(t.def)), Contents(n), Key(name);
    var L, y, R := Contents(n.left), Entry(Key(n.name), Key(n.def)), Contents(n.right);
    Cut(A, x, B, k, k);
    Cut(L, y, R, k, k);
    Unfold(Erase(t, name).table);
    i := |A| + 1;
    var C := A + [x] + R;
    assert C[..i] == A + [x] && C[i..] == R;
    assert A + [x] + (L + R) == A + [x] + L + R;
  }

  /** Killing a macro by its name in lower case, or the macro at the root by its name in any case,
      removes exactly that name. */
  lemma KillRefines(t: Table, name: string)
    requires Valid(t) && (IsLower(name) || (t.Macro? && StrCmp(name, t.name, true) == 0))
    ensures
      var g := KillMacro(t, name);
      && Valid(g.table) && Contents(g.table) == Del(Contents(t), Key(name))
      && (g.ok <==> Get(Contents(t), Key(name)).Some?)
  {
    hide Order, StrCmp, Ascending, Contents;
    DelAscending(Contents(t), Key(name));
    if t.Tip? {
      EmptyContents(Key(name));
    } else if StrCmp(name, t.name, true) == 0 {
      KillRoot(t, name);
    } else {
      var i := EraseRefines(t, name);
      var e := Erase(t, name);
      if e.found {
        var C := Contents(e.table);
        GraftRefines(e.table, e.orphan, C[..i], C[i..]);
      } else {
        AbsentDel(Contents(t), Key(name));
      }
    }
  }

  lemma {:induction false} AbsentDel(s: Entries, k: Item)
    requires Get(s, k).None?
    ensures Del(s, k) == s
    decreases |s|
  {
    hide Order;
    if s != [] {
      AbsentDel(s[1..], k);
      assert s == [s[0]] + s[1..];
    }
  }

  /** The orphan goes back where it was. */
  lemma GraftRefines(t: Table, orphan: Table, a: Entries, b: Entries)
    requires AllLower(t) && AllLower(orphan) && t.Macro? && Contents(t) == a + b
    requires Ascending(a + Contents(orphan) + b)
    ensures Contents(Graft(t, orphan)) == a + Contents(orphan) + b && Valid(Graft(t, orphan))
  {
    hide Order, Ascending, Contents;
    FitsFromOrder(a, Contents(orphan), b);
    if orphan.Macro? {
      GrowRefines(t, orphan, |a|);
    } else {
      EmptyContents(Key(""));
      assert a + Contents(orphan) + b == a + b;
    }
  }

  lemma KillRoot(t: Table, name: string)
    requires Valid(t) && t.Macro? && StrCmp(name, t.name, true) == 0
    ensures
      var g := KillMacro(t, name);
      && Valid(g.table) && Contents(g.table) == Del(Contents(t), Key(name))
      && g.ok && Get(Contents(t), Key(name)).Some?
  {
    hide Order, StrCmp, Ascending, Contents, Del, Get;
    DelAscending(Contents(t), Key(name));
    Parts(t);
    Unfold(t);
    OrderIs(name, t.name);
    Cut(Contents(t.left), Entry(Key(t.name), Key(t.def)), Contents(t.right), Key(name), Key(name));
    EmptyContents(Key(name));
    var none: Entries := [];
    if t.left.Macro? {
      assert Contents(t.left) + none == Contents(t.left);
      assert Contents(t.left) + Contents(t.right) + none == Contents(t.left) + Contents(t.right);
      GraftRefines(t.left, t.right, Contents(t.left), none);
    } else {
      assert none + Contents(t.right) == Contents(t.right);
    }
  }

  // ----- names with capital letters -----

  lemma {:induction false} CapitalDiffers(a: string, b: string)
    requires !IsLower(a) && IsLower(b)
    ensures StrCmp(a, b, false) != 0
    decreases |a|
  {
    if Head(a, false) == Head(b, false) && Lower(a[0]) == a[0] {
      CapitalDiffers(a[1..], b[1..]);
    }
  }

  /** erase_node compares exactly, so it never finds a name with a capital letter. */
  lemma {:induction false} CapitalNotFound(t: Table, name: string)
    requires t.Macro? && AllLower(t) && !IsLower(name)
    ensures Erase(t, name) == Erased(t, Tip, false)
    decreases t
  {
    hide StrCmp;
    if t.left.Macro? {
      CapitalDiffers(name, t.left.name);
      CapitalNotFound(t.left, name);
    }
    if t.right.Macro? {
      CapitalDiffers(name, t.right.name);
      CapitalNotFound(t.right, name);
    }
  }

  /** Lookup ignores case, but killing does not, except at the root: killing a name removes what
      looking it up finds exactly when the name is in lower case, or is the root's, or is not there. */
  lemma KillIsRemovalIff(t: Table, name: string)
    requires Valid(t)
    ensures Contents(KillMacro(t, name).table) == Del(Contents(t), Key(name)) <==>
            IsLower(name) || (t.Macro? && StrCmp(name, t.name, true) == 0) || Expand(t, name).None?
  {
    hide Order, StrCmp, Ascending, Contents;
    ExpandRefines(t, name);
    if IsLower(name) || (t.Macro? && StrCmp(name, t.name, true) == 0) {
      KillRefines(t, name);
    } else if t.Tip? {
      EmptyContents(Key(name));
    } else {
      CapitalNotFound(t, name);
      if Expand(t, name).None? {
        AbsentDel(Contents(t), Key(name));
      } else {
        PresentShorter(Contents(t), Key(name));
      }
    }
  }

  lemma {:induction false} PresentShorter(s: Entries, k: Item)
    requires Get(s, k).Some?
    ensures |Del(s, k)| == |s| - 1
    decreases |s|
  {
    hide Order;
    if Order(k, s[0].key) != 0 {
      PresentShorter(s[1..], k);
    }
  }
}
