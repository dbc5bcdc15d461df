/** Walking a dictionary in key order: first, last, next and previous node. */
module Walk {
  import opened Compare
  import opened Sorted
  import opened Avl
  import opened Options

  // ----- on sequences of entries -----

  /** The entry with the least key greater than k. */
  function NextOf(s: Entries, k: Item): Option<Entry> {
    if s == [] then None
    else if Order(k, s[0].key) < 0 then Some(s[0])
    else NextOf(s[1..], k)
  }

  /** The entry with the greatest key smaller than k. */
  function PrevOf(s: Entries, k: Item): Option<Entry> {
    if s == [] then None
    else if Order(k, s[|s| - 1].key) > 0 then Some(s[|s| - 1])
    else PrevOf(s[..|s| - 1], k)
  }

  /** e is the least entry above k. */
  ghost predicate LeastAbove(s: Entries, k: Item, e: Entry) {
    && e in s && Order(k, e.key) < 0
    && forall i :: 0 <= i < |s| && Order(k, s[i].key) < 0 ==> s[i] == e || Order(e.key, s[i].key) < 0
  }

  ghost predicate GreatestBelow(s: Entries, k: Item, e: Entry) {
    && e in s && Order(k, e.key) > 0
    && forall i :: 0 <= i < |s| && Order(k, s[i].key) > 0 ==> s[i] == e || Order(e.key, s[i].key) > 0
  }

  lemma {:induction false} NextOfIs(s: Entries, k: Item)
    requires Ascending(s)
    ensures NextOf(s, k).Some? ==> LeastAbove(s, k, NextOf(s, k).value)
    ensures NextOf(s, k).None? ==> forall i :: 0 <= i < |s| ==> Order(k, s[i].key) >= 0
    decreases |s|
  {
    hide Order;
    if s != [] && Order(k, s[0].key) >= 0 {
      NextOfIs(s[1..], k);
      forall i | 0 <= i < |s| && Order(k, s[i].key) < 0
        ensures NextOf(s, k).Some? && (s[i] == NextOf(s, k).value || Order(NextOf(s, k).value.key, s[i].key) < 0)
      {
        assert s[i] == s[1..][i - 1];
      }
    }
  }

  lemma {:induction false} PrevOfIs(s: Entries, k: Item)
    requires Ascending(s)
    ensures PrevOf(s, k).Some? ==> GreatestBelow(s, k, PrevOf(s, k).value)
    ensures PrevOf(s, k).None? ==> forall i :: 0 <= i < |s| ==> Order(k, s[i].key) <= 0
    decreases |s|
  {
    hide Order;
    if s != [] {
      var n := |s| - 1;
      if Order(k, s[n].key) > 0 {
        forall i | 0 <= i < |s| ensures s[i] == s[n] || Order(s[n].key, s[i].key) > 0 {
          Flip(s[i].key, s[n].key);
        }
      } else {
        PrevOfIs(s[..n], k);
        forall i | 0 <= i < |s| && Order(k, s[i].key) > 0
          ensures PrevOf(s, k).Some? && (s[i] == PrevOf(s, k).value || Order(PrevOf(s, k).value.key, s[i].key) > 0)
        {
          assert s[i] == s[..n][i];
        }
      }
    }
  }

  lemma {:induction false} NextCut(a: Entries, x: Entry, b: Entries, k: Item)
    requires Ascending(a + [x] + b)
    ensures Order(k, x.key) < 0 ==>
              NextOf(a + [x] + b, k) == if NextOf(a, k).Some? then NextOf(a, k) else Some(x)
    ensures Order(k, x.key) >= 0 ==> NextOf(a + [x] + b, k) == NextOf(b, k)
    decreases |a|
  {
    hide Order, Ascending;
    var s := a + [x] + b;
    AscendingCut(a, x, b);
    if a == [] {
      assert s == [x] + b && s[1..] == b;
    } else {
      assert s[0] == a[0] && s[1..] == a[1..] + [x] + b;
      AscendingTail(s);
      NextCut(a[1..], x, b, k);
      assert Order(a[0].key, x.key) < 0;
      Flip(k, a[0].key);
      Flip(k, x.key);
      Chain(k, a[0].key, x.key);
    }
  }

  lemma AscendingFront(s: Entries)
    requires Ascending(s) && s != []
    ensures Ascending(s[..|s| - 1])
  {
    hide Order;
  }

  lemma {:induction false} PrevCut(a: Entries, x: Entry, b: Entries, k: Item)
    requires Ascending(a + [x] + b)
    ensures Order(k, x.key) > 0 ==>
              PrevOf(a + [x] + b, k) == if PrevOf(b, k).Some? then PrevOf(b, k) else Some(x)
    ensures Order(k, x.key) <= 0 ==> PrevOf(a + [x] + b, k) == PrevOf(a, k)
    decreases |b|
  {
    hide Order, Ascending;
    var s := a + [x] + b;
    AscendingCut(a, x, b);
    if b == [] {
      assert s == a + [x] && s[..|s| - 1] == a;
    } else {
      var n := |b| - 1;
      assert s[|s| - 1] == b[n] && s[..|s| - 1] == a + [x] + b[..n];
      AscendingFront(s);
      PrevCut(a, x, b[..n], k);
      assert Order(b[n].key, x.key) > 0;
      Flip(k, b[n].key);
      Flip(k, x.key);
      Flip(b[n].key, x.key);
      Chain(k, x.key, b[n].key);
    }
  }

  // ----- on trees -----

  function FirstNode(t: Tree): Entry
    requires t.Node?
  {
    if t.left.Node? then FirstNode(t.left) else Entry(t.key, t.val)
  }

  function NextNode(t: Tree, k: Item): Option<Entry> {
    if t.Leaf? then None
    else
      var c := Order(k, t.key);
      if c < 0 then
        var from := NextNode(t.left, k);
        if from.Some? then from else Some(Entry(t.key, t.val))
      else if c > 0 then NextNode(t.right, k)
      else if t.right.Node? then Some(FirstNode(t.right))
      else None
  }

  function PrevNode(t: Tree, k: Item): Option<Entry> {
    if t.Leaf? then None
    else
      var c := Order(k, t.key);
      if c > 0 then
        var from := PrevNode(t.right, k);
        if from.Some? then from else Some(Entry(t.key, t.val))
      else if c < 0 then PrevNode(t.left, k)
      else if t.left.Node? then Some(GetMax(t.left))
      else None
  }

  lemma {:induction false} FirstIsFirst(t: Tree)
    requires t.Node?
    ensures |Contents(t)| > 0 && Contents(t)[0] == FirstNode(t)
  {
    if t.left.Node? {
      FirstIsFirst(t.left);
    }
  }

  lemma LastIsLast(t: Tree)
    requires t.Node?
    ensures |Contents(t)| > 0 && Contents(t)[|Contents(t)| - 1] == GetMax(t)
  {
    var rest := MaxIsLast(t);
  }

  /** The next node is the entry with the least greater key, whether or not the key is present. */
  lemma {:induction false} NextRefines(t: Tree, k: Item)
    requires Ascending(Contents(t))
    ensures NextNode(t, k) == NextOf(Contents(t), k)
  {
    hide Order, Ascending;
    if t.Node? {
      OrderedParts(t);
      NextCut(Contents(t.left), Entry(t.key, t.val), Contents(t.right), k);
      NextRefines(t.left, k);
      NextRefines(t.right, k);
      if Order(k, t.key) == 0 && t.right.Node? {
        FirstIsFirst(t.right);
        Flip(k, Contents(t.right)[0].key);
        SameKey(k, t.key, Contents(t.right)[0].key);
        Flip(Contents(t.right)[0].key, t.key);
      }
    }
  }

  lemma {:induction false} PrevRefines(t: Tree, k: Item)
    requires Ascending(Contents(t))
    ensures PrevNode(t, k) == PrevOf(Contents(t), k)
  {
    hide Order, Ascending;
    if t.Node? {
      OrderedParts(t);
      PrevCut(Contents(t.left), Entry(t.key, t.val), Contents(t.right), k);
      PrevRefines(t.left, k);
      PrevRefines(t.right, k);
      if Order(k, t.key) == 0 && t.left.Node? {
        LastIsLast(t.left);
        var m := Contents(t.left)[|Contents(t.left)| - 1].key;
        SameKey(k, t.key, m);
        Flip(m, t.key);
        Flip(k, m);
      }
    }
  }

  /** From the i-th key, next is the (i+1)-th and prev the (i-1)-th: starting at the first node, next
      visits every key once, in ascending order. */
  lemma Neighbours(t: Tree, i: nat)
    requires Ascending(Contents(t)) && i < |Contents(t)|
    ensures
      var s := Contents(t);
      && NextNode(t, s[i].key) == (if i + 1 < |s| then Some(s[i + 1]) else None)
      && PrevNode(t, s[i].key) == (if i > 0 then Some(s[i - 1]) else None)
  {
    hide Order, Ascending;
    var s := Contents(t);
    var a, x, b := s[..i], s[i], s[i + 1..];
    assert s == a + [x] + b;
    AscendingCut(a, x, b);
    NextRefines(t, x.key);
    PrevRefines(t, x.key);
    SelfOrder(x.key);
    NextCut(a, x, b, x.key);
    PrevCut(a, x, b, x.key);
    if b != [] {
      Flip(b[0].key, x.key);
    }
    if a != [] {
      Flip(a[|a| - 1].key, x.key);
    }
  }
}
