/** Dictionaries as what they mean: sequences of entries with strictly increasing keys, and the map laws
of setting, removing and looking up. Keys that compare equal are the same key. */
module Sorted {
  import opened Compare
  import opened Options

  type Entries = seq<Entry>

  function Order(a: Item, b: Item): int {
    Cmp(a, b, false)
  }

  ghost predicate Ascending(s: Entries) {
    forall i, j :: 0 <= i < j < |s| ==> Order(s[i].key, s[j].key) < 0
  }

  /** The value of a key. */
  function Get(s: Entries, k: Item): Option<Item> {
    if s == [] then None
    else if Order(k, s[0].key) == 0 then Some(s[0].val)
    else Get(s[1..], k)
  }

  /** Setting a key keeps an equal key that is already there. */
  function Put(s: Entries, k: Item, v: Item): Entries {
    if s == [] then [Entry(k, v)]
    else if Order(k, s[0].key) < 0 then [Entry(k, v)] + s
    else if Order(k, s[0].key) == 0 then [Entry(s[0].key, v)] + s[1..]
    else [s[0]] + Put(s[1..], k, v)
  }

  function Del(s: Entries, k: Item): Entries {
    if s == [] then []
    else if Order(k, s[0].key) == 0 then s[1..]
    else [s[0]] + Del(s[1..], k)
  }

  // ----- the order -----

  lemma Flip(a: Item, b: Item)
    ensures Opposite(Order(a, b), Order(b, a))
  {
    CmpOpposite(a, b, false);
  }

  lemma Chain(a: Item, b: Item, c: Item)
    ensures Chains(Order(a, b), Order(b, c), Order(a, c))
  {
    CmpChains(a, b, c, false);
  }

  /** Equal keys compare alike with everything. */
  lemma SameKey(a: Item, b: Item, c: Item)
    requires Order(a, b) == 0
    ensures Order(a, c) < 0 <==> Order(b, c) < 0
    ensures Order(a, c) > 0 <==> Order(b, c) > 0
  {
    hide Order;
    Flip(a, b);
    Flip(a, c);
    Flip(b, c);
    Chain(a, b, c);
    Chain(b, a, c);
    Chain(c, a, b);
    Chain(c, b, a);
  }

  lemma SelfOrder(a: Item)
    ensures Order(a, a) == 0
  {
    hide Order;
    Flip(a, a);
  }

  // ----- map laws -----

  /** After setting k, an equal key has the new value and every other key what it had. */
  lemma {:induction false} GetPut(s: Entries, k: Item, v: Item, k': Item)
    requires Ascending(s)
    ensures Get(Put(s, k, v), k') == if Order(k', k) == 0 then Some(v) else Get(s, k')
    decreases |s|
  {
    hide Order, Ascending;
    if s == [] {
    } else {
      var x := s[0].key;
      Flip(k, x);
      Flip(k', k);
      Flip(k', x);
      AscendingTail(s);
      if Order(k, x) < 0 {
        assert ([Entry(k, v)] + s)[1..] == s;
      } else if Order(k, x) == 0 {
        SameKey(k, x, k');
        assert ([Entry(x, v)] + s[1..])[1..] == s[1..];
      } else {
        GetPut(s[1..], k, v, k');
        assert ([s[0]] + Put(s[1..], k, v))[1..] == Put(s[1..], k, v);
        SameKey2(k', x, k);
      }
    }
  }

  lemma SameKey2(a: Item, b: Item, c: Item)
    ensures Order(a, b) == 0 && Order(a, c) == 0 ==> Order(b, c) == 0
  {
    hide Order;
    if Order(a, b) == 0 {
      SameKey(a, b, c);
    }
  }

  lemma AscendingTail(s: Entries)
    requires Ascending(s) && s != []
    ensures Ascending(s[1..])
  {
    hide Order;
  }

  lemma {:induction false} AbsentAbove(s: Entries, k: Item)
    requires forall i :: 0 <= i < |s| ==> Order(k, s[i].key) != 0
    ensures Get(s, k) == None && Del(s, k) == s
    decreases |s|
  {
    hide Order;
    if s != [] {
      AbsentAbove(s[1..], k);
      assert s == [s[0]] + s[1..];
    }
  }

  /** After removing k, an equal key has no value and every other key what it had. */
  lemma {:induction false} GetDel(s: Entries, k: Item, k': Item)
    requires Ascending(s)
    ensures Get(Del(s, k), k') == if Order(k', k) == 0 then None else Get(s, k')
    decreases |s|
  {
    hide Order, Ascending;
    if s == [] {
    } else {
      var x := s[0].key;
      Flip(k, x);
      Flip(k', k);
      AscendingTail(s);
      if Order(k, x) == 0 {
        SameKey(k, x, k');
        Flip(k', x);
        if Order(k', k) == 0 {
          HeadLess(s);
          forall i | 0 <= i < |s[1..]| ensures Order(k', s[1..][i].key) != 0 {
            assert s[1..][i] == s[i + 1];
            SameKey(k', x, s[i + 1].key);
          }
          AbsentAbove(s[1..], k');
        }
      } else {
        GetDel(s[1..], k, k');
        assert ([s[0]] + Del(s[1..], k))[1..] == Del(s[1..], k);
        SameKey2(k', x, k);
      }
    }
  }

  lemma HeadLess(s: Entries)
    requires Ascending(s) && s != []
    ensures forall i :: 0 < i < |s| ==> Order(s[0].key, s[i].key) < 0
  {
    hide Order;
  }

  // ----- cutting at an entry -----

  ghost predicate AllBelow(s: Entries, k: Item) {
    forall i :: 0 <= i < |s| ==> Order(s[i].key, k) < 0
  }

  ghost predicate AllAbove(s: Entries, k: Item) {
    forall i :: 0 <= i < |s| ==> Order(s[i].key, k) > 0
  }

  lemma AscendingCut(a: Entries, x: Entry, b: Entries)
    ensures Ascending(a + [x] + b) <==> Ascending(a) && Ascending(b) && AllBelow(a, x.key) && AllAbove(b, x.key)
  {
    hide Order;
    var s := a + [x] + b;
    if Ascending(s) {
      forall i, j | 0 <= i < j < |a| ensures Order(a[i].key, a[j].key) < 0 {
        assert s[i] == a[i] && s[j] == a[j];
      }
      forall i, j | 0 <= i < j < |b| ensures Order(b[i].key, b[j].key) < 0 {
        assert s[|a| + 1 + i] == b[i] && s[|a| + 1 + j] == b[j];
      }
      forall i | 0 <= i < |a| ensures Order(a[i].key, x.key) < 0 {
        assert s[i] == a[i] && s[|a|] == x;
      }
      forall i | 0 <= i < |b| ensures Order(b[i].key, x.key) > 0 {
        assert s[|a| + 1 + i] == b[i] && s[|a|] == x;
        Flip(b[i].key, x.key);
      }
    }
    if Ascending(a) && Ascending(b) && AllBelow(a, x.key) && AllAbove(b, x.key) {
      forall i, j | 0 <= i < j < |s| ensures Order(s[i].key, s[j].key) < 0 {
        if i < |a| && j > |a| {
          Flip(s[j].key, x.key);
          Chain(s[i].key, x.key, s[j].key);
        } else if i == |a| {
          Flip(s[j].key, x.key);
        }
      }
    }
  }

  /** Setting, removing and looking up a key work on the side of the cut where the key belongs. */
  lemma {:induction false} Cut(a: Entries, x: Entry, b: Entries, k: Item, v: Item)
    requires Ascending(a + [x] + b)
    ensures Order(k, x.key) < 0 ==>
              && Put(a + [x] + b, k, v) == Put(a, k, v) + [x] + b
              && Del(a + [x] + b, k) == Del(a, k) + [x] + b
              && Get(a + [x] + b, k) == Get(a, k)
    ensures Order(k, x.key) == 0 ==>
              && Put(a + [x] + b, k, v) == a + [Entry(x.key, v)] + b
              && Del(a + [x] + b, k) == a + b
              && Get(a + [x] + b, k) == Some(x.val)
    ensures Order(k, x.key) > 0 ==>
              && Put(a + [x] + b, k, v) == a + [x] + Put(b, k, v)
              && Del(a + [x] + b, k) == a + [x] + Del(b, k)
              && Get(a + [x] + b, k) == Get(b, k)
    decreases |a|
  {
    hide Order, Ascending;
    var s := a + [x] + b;
    AscendingCut(a, x, b);
    if a == [] {
      assert s == [x] + b && s[1..] == b;
      if Order(k, x.key) < 0 {
        forall i | 0 <= i < |b| ensures Order(k, b[i].key) != 0 {
          Flip(b[i].key, x.key);
          Chain(k, x.key, b[i].key);
        }
        AbsentAbove(b, k);
      }
    } else {
      var a' := a[1..];
      assert s[0] == a[0] && s[1..] == a' + [x] + b;
      AscendingTail(s);
      Cut(a', x, b, k, v);
      assert Order(a[0].key, x.key) < 0;
      Flip(k, a[0].key);
      Flip(k, x.key);
      Chain(k, a[0].key, x.key);
      CutHead(a, x, b, k, v);
    }
  }

  lemma {:induction false} CutHead(a: Entries, x: Entry, b: Entries, k: Item, v: Item)
    requires a != []
    ensures [a[0]] + (Put(a[1..], k, v) + [x] + b) == ([a[0]] + Put(a[1..], k, v)) + [x] + b
    ensures [a[0]] + (Del(a[1..], k) + [x] + b) == ([a[0]] + Del(a[1..], k)) + [x] + b
    ensures [Entry(k, v)] + (a + [x] + b) == ([Entry(k, v)] + a) + [x] + b
    ensures [Entry(a[0].key, v)] + (a[1..] + [x] + b) == ([Entry(a[0].key, v)] + a[1..]) + [x] + b
    ensures a == [a[0]] + a[1..]
    ensures [a[0]] + (a[1..] + [Entry(x.key, v)] + b) == a + [Entry(x.key, v)] + b
    ensures [a[0]] + (a[1..] + b) == a + b
    ensures forall c: Entries :: [a[0]] + (a[1..] + [x] + c) == a + [x] + c
  {}

  // ----- the order is kept -----

  /** Every key of the result is the new key or an old one. */
  lemma {:induction false} PutKeys(s: Entries, k: Item, v: Item, i: nat)
    requires i < |Put(s, k, v)|
    ensures Put(s, k, v)[i].key == k || exists j :: 0 <= j < |s| && s[j].key == Put(s, k, v)[i].key
    decreases |s|
  {
    hide Order;
    if s != [] {
      var r := Put(s, k, v);
      if Order(k, s[0].key) < 0 {
        if i > 0 {
          assert r[i] == s[i - 1];
        }
      } else if Order(k, s[0].key) == 0 {
        if i > 0 {
          assert r[i] == s[i];
        } else {
          assert r[0].key == s[0].key;
        }
      } else if i > 0 {
        PutKeys(s[1..], k, v, i - 1);
        if r[i].key != k {
          var j :| 0 <= j < |s[1..]| && s[1..][j].key == Put(s[1..], k, v)[i - 1].key;
          assert s[j + 1].key == r[i].key;
        }
      }
    }
  }

  lemma {:induction false} PutAscending(s: Entries, k: Item, v: Item)
    requires Ascending(s)
    ensures Ascending(Put(s, k, v))
    decreases |s|
  {
    hide Order, Ascending;
    var none: Entries := [];
    if s == [] {
      AscendingCut(none, Entry(k, v), none);
      assert Ascending(none) by { NoneAscending(); }
      assert none + [Entry(k, v)] + none == [Entry(k, v)];
    } else {
      var x := s[0];
      assert s == none + [x] + s[1..];
      AscendingCut(none, x, s[1..]);
      AscendingTail(s);
      if Order(k, x.key) < 0 {
        forall i | 0 <= i < |s| ensures Order(s[i].key, k) > 0 {
          Flip(k, x.key);
          if i > 0 {
            assert s[1..][i - 1] == s[i];
            Flip(s[i].key, x.key);
            Chain(k, x.key, s[i].key);
          }
          Flip(k, s[i].key);
        }
        AscendingCut(none, Entry(k, v), s);
        assert none + [Entry(k, v)] + s == [Entry(k, v)] + s;
      } else if Order(k, x.key) == 0 {
        AscendingCut(none, Entry(x.key, v), s[1..]);
        assert none + [Entry(x.key, v)] + s[1..] == [Entry(x.key, v)] + s[1..];
      } else {
        PutAscending(s[1..], k, v);
        var r := Put(s[1..], k, v);
        forall i | 0 <= i < |r| ensures Order(r[i].key, x.key) > 0 {
          PutKeys(s[1..], k, v, i);
        }
        AscendingCut(none, x, r);
        assert none + [x] + r == [x] + r;
      }
    }
  }

  lemma NoneAscending()
    ensures Ascending([])
  {}

  lemma {:induction false} DelAscending(s: Entries, k: Item)
    requires Ascending(s)
    ensures Ascending(Del(s, k)) && forall i :: 0 <= i < |Del(s, k)| ==> Del(s, k)[i] in s
    decreases |s|
  {
    hide Order, Ascending;
    if s != [] {
      AscendingTail(s);
      if Order(k, s[0].key) != 0 {
        var none: Entries := [];
        var r := Del(s[1..], k);
        DelAscending(s[1..], k);
        assert s == none + [s[0]] + s[1..];
        AscendingCut(none, s[0], s[1..]);
        forall i | 0 <= i < |r| ensures Order(r[i].key, s[0].key) > 0 {
          assert r[i] in s[1..];
        }
        AscendingCut(none, s[0], r);
        assert none + [s[0]] + r == [s[0]] + r;
      }
    }
  }
}
