/** Dictionaries whose keys are ints or strings, in plain numbers and characters: the order they are walked in,
what lies in a range, and which keys are one and the same. */
module Keys {
  import opened Compare
  import opened Sorted
  import opened Avl
  import opened Walk
  import opened Dictionary
  import opened Options

  function IntKey(n: int): Item {
    Num(Integer, n)
  }

  /** Every key is an int. */
  ghost predicate OverInts(s: Entries) {
    forall i :: 0 <= i < |s| ==> s[i].key.Num? && s[i].key.kind == Integer
  }

  /** The keys of a dictionary over ints ascend as numbers do. */
  lemma AscendingInts(s: Entries)
    requires OverInts(s)
    ensures Ascending(s) <==> forall i, j :: 0 <= i < j < |s| ==> s[i].key.n < s[j].key.n
  {
    hide Cmp;
    forall i, j | 0 <= i < j < |s| ensures Order(s[i].key, s[j].key) < 0 <==> s[i].key.n < s[j].key.n {
      NumbersBySize(s[i].key, s[j].key, false);
    }
  }

  /** The walk over such a dictionary begins at the least number and comes from every number to the next
      greater one, and back. */
  lemma WalkInts(t: Tree, i: nat)
    requires Ascending(Contents(t)) && OverInts(Contents(t)) && i < |Contents(t)|
    ensures
      var s := Contents(t);
      && t.Node? && FirstNode(t) == s[0] && GetMax(t) == s[|s| - 1]
      && s[0].key.n <= s[i].key.n <= s[|s| - 1].key.n
      && (i + 1 < |s| ==> NextNode(t, s[i].key) == Some(s[i + 1]) && s[i].key.n < s[i + 1].key.n)
      && (i > 0 ==> PrevNode(t, s[i].key) == Some(s[i - 1]) && s[i - 1].key.n < s[i].key.n)
      && (i + 1 == |s| ==> NextNode(t, s[i].key) == None) && (i == 0 ==> PrevNode(t, s[i].key) == None)
  {
    hide Order, Ascending, OverInts;
    assert t.Node?;
    var s := Contents(t);
    AscendingInts(s);
    FirstIsFirst(t);
    LastIsLast(t);
    Neighbours(t, i);
  }

  /** From any number, in the dictionary or not, next is the least greater one there is. */
  lemma NextInt(t: Tree, n: int)
    requires Ascending(Contents(t)) && OverInts(Contents(t))
    ensures
      var s, e := Contents(t), NextNode(t, IntKey(n));
      && (e.Some? ==> e.value in s && n < e.value.key.n)
      && forall i :: 0 <= i < |s| && n < s[i].key.n ==> e.Some? && e.value.key.n <= s[i].key.n
  {
    hide Ascending, Cmp;
    var s := Contents(t);
    NextRefines(t, IntKey(n));
    NextOfIs(s, IntKey(n));
    var e := NextNode(t, IntKey(n));
    if e.Some? {
      NumbersBySize(IntKey(n), e.value.key, false);
    }
    forall i | 0 <= i < |s| && n < s[i].key.n ensures e.Some? && e.value.key.n <= s[i].key.n {
      NumbersBySize(IntKey(n), s[i].key, false);
      if e.Some? {
        NumbersBySize(e.value.key, s[i].key, false);
      }
    }
  }

  /** An entry is in a range, or outside it, when its number is. */
  lemma {:induction false} RangeHolds(s: Entries, lo: int, hi: int, inside: bool, e: Entry)
    requires OverInts(s)
    ensures e in Select(s, IntKey(lo), IntKey(hi), inside) <==> e in s && (lo <= e.key.n <= hi) == inside
    decreases |s|
  {
    hide Cmp, OverInts;
    if s != [] {
      IntsTail(s);
      NumbersBySize(IntKey(lo), s[0].key, false);
      NumbersBySize(s[0].key, IntKey(hi), false);
      RangeHolds(s[1..], lo, hi, inside, e);
      assert s == [s[0]] + s[1..];
    }
  }

  lemma IntsTail(s: Entries)
    requires OverInts(s) && s != []
    ensures OverInts(s[1..]) && s[0].key.Num? && s[0].key.kind == Integer
    ensures forall i :: 0 <= i < |s| ==> s[i].key.Num?
  {}

  /** The range from lo to hi of a dictionary over ints holds the entries from lo to hi, and what is left when
      it is deleted holds the others, each in ascending order. */
  lemma {:induction false} IntRange(s: Entries, lo: int, hi: int)
    requires Ascending(s) && OverInts(s)
    ensures forall e :: e in Within(s, IntKey(lo), IntKey(hi)) <==> e in s && lo <= e.key.n <= hi
    ensures forall e :: e in Without(s, IntKey(lo), IntKey(hi)) <==> e in s && !(lo <= e.key.n <= hi)
    ensures Ascending(Within(s, IntKey(lo), IntKey(hi))) && Ascending(Without(s, IntKey(lo), IntKey(hi)))
  {
    hide Select, Ascending, Cmp;
    forall e ensures e in Within(s, IntKey(lo), IntKey(hi)) <==> e in s && lo <= e.key.n <= hi {
      RangeHolds(s, lo, hi, true, e);
    }
    forall e ensures e in Without(s, IntKey(lo), IntKey(hi)) <==> e in s && !(lo <= e.key.n <= hi) {
      RangeHolds(s, lo, hi, false, e);
    }
    SelectAscends(s, IntKey(lo), IntKey(hi), true);
    SelectAscends(s, IntKey(lo), IntKey(hi), false);
  }

  lemma {:induction false} SelectIn(s: Entries, lo: Item, hi: Item, inside: bool)
    ensures forall e :: e in Select(s, lo, hi, inside) ==> e in s
    decreases |s|
  {
    hide InRange;
    if s != [] {
      SelectIn(s[1..], lo, hi, inside);
      assert s == [s[0]] + s[1..];
    }
  }

  lemma {:induction false} SelectAscends(s: Entries, lo: Item, hi: Item, inside: bool)
    requires Ascending(s)
    ensures Ascending(Select(s, lo, hi, inside))
    decreases |s|
  {
    hide InRange, Order;
    if s != [] {
      AscendingTail(s);
      SelectAscends(s[1..], lo, hi, inside);
      SelectIn(s[1..], lo, hi, inside);
      var r := Select(s[1..], lo, hi, inside);
      forall e | e in r ensures Order(s[0].key, e.key) < 0 {
        var i :| 0 <= i < |s[1..]| && s[1..][i] == e;
        assert s[i + 1] == e;
      }
      HeadAscends(s[0], r);
      SelectHead(s, lo, hi, inside);
      hide Select;
      var none: Entries := [];
      assert none + r == r;
    }
  }

  lemma HeadAscends(x: Entry, r: Entries)
    requires Ascending(r) && forall e :: e in r ==> Order(x.key, e.key) < 0
    ensures Ascending([x] + r)
  {
    hide Order;
    var s := [x] + r;
    forall i, j | 0 <= i < j < |s| ensures Order(s[i].key, s[j].key) < 0 {
      var y := r[j - 1];
      assert y in r && s[j] == y;
      if i > 0 {
        assert s[i] == r[i - 1];
      }
    }
  }

  /** Two ints are one key when they are the same, two strings when they differ in nothing but the case of
      letters, and values of different types never. */
  lemma SameKeys(a: Item, b: Item)
    ensures Rank(a) != Rank(b) ==> Order(a, b) != 0
    ensures a.Num? && b.Num? && a.kind == b.kind ==> (Order(a, b) == 0 <==> a.n == b.n)
    ensures a.Str? && b.Str? && Ended(a.s) && Ended(b.s) ==> (Order(a, b) == 0 <==> AllButForCase(a.s, b.s))
  {
    hide Ended, StrCmp;
    NumbersBySize(a, b, false);
    if a.Str? && b.Str? && Ended(a.s) && Ended(b.s) {
      FoldsIff(a.s, b.s);
    }
  }
}
