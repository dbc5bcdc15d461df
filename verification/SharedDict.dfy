/** Dictionaries shared by reference count: a change through one handle first takes a copy when others hold
the dictionary too, unless it is pinned. */
module SharedDict {
  import opened Compare
  import opened Sorted
  import opened Avl
  import opened Walk
  import opened Dictionary
  import opened Handles
  import opened Options

  class DictHolders {
    var handles: seq<Dict>

    /** Every handle holds a valid dictionary, which knows how many handles hold it. */
    ghost predicate Held()
      reads this, handles
    {
      forall i :: 0 <= i < |handles| ==> handles[i].Ok() && handles[i].links == Count(handles, handles[i])
    }

    /** Who sees a change made through handle i. */
    ghost predicate Sees(i: nat, j: nat)
      requires i < |handles| && j < |handles|
      reads this, handles
    {
      j == i || (handles[j] == handles[i] && handles[i].pinned)
    }

    ghost predicate Ready(i: nat)
      requires i < |handles|
      reads this, handles
    {
      forall j :: 0 <= j < |handles| && handles[j] == handles[i] ==> Sees(i, j)
    }

    /** array_decouple on a dictionary: entry after entry goes into a new one. */
    method Decouple(a: Dict) returns (nu: Dict)
      requires a.Ok()
      ensures fresh(nu) && nu.Ok() && nu.links == 1 && nu.pinned == a.pinned && nu.Value() == a.Value()
    {
      hide Order, Ascending, Balanced, Contents, Put;
      nu := new Dict(a.pinned);
      ghost var s := Contents(a.tree);
      if a.tree.Leaf? {
        EmptyTree(a.tree);
        return;
      }
      FirstIsFirst(a.tree);
      var cur := Some(FirstNode(a.tree));
      ghost var m := 0;
      assert s[..0] == [];
      while cur.Some?
        invariant m <= |s| && cur == (if m < |s| then Some(s[m]) else None)
        invariant fresh(nu) && nu.Ok() && nu.links == 1 && nu.pinned == a.pinned && nu.Value() == s[..m]
        decreases |s| - m
      {
        SliceBelow(s, 0, m);
        assert s[0..m] == s[..m];
        PutLast(s[..m], s[m].key, s[m].val);
        assert s[..m] + [s[m]] == s[..m + 1];
        var _ := nu.SetItem(cur.value.key, cur.value.val);
        Neighbours(a.tree, m);
        cur := NextNode(a.tree, cur.value.key);
        m := m + 1;
      }
      assert s[..m] == s;
    }

    /** Before a change: a shared dictionary that is not pinned is copied, and the handle holds the copy. */
    method Prepare(i: nat)
      requires i < |handles| && Held()
      modifies this, handles
      ensures Held() && |handles| == |old(handles)| && Ready(i)
      ensures forall j :: 0 <= j < |handles| ==>
        handles[j].Value() == old(handles[j].Value()) && (Sees(i, j) <==> old(Sees(i, j)))
      ensures forall j :: 0 <= j < |handles| ==> handles[j] in old(handles) || fresh(handles[j])
    {
      hide Contents, Avl.Valid, Size;
      var a := handles[i];
      if a.links > 1 && !a.pinned {
        a.links := a.links - 1;
        var nu := Decouple(a);
        ghost var before := handles;
        handles := handles[i := nu];
        forall j | 0 <= j < |handles| ensures handles[j].links == Count(handles, handles[j]) {
          CountUpdate(before, i, nu, handles[j]);
          CountNone(before, nu);
        }
      } else {
        forall j | 0 <= j < |handles| && handles[j] == handles[i] ensures Sees(i, j) {
          if j < i {
            CountTwo(handles, j, i);
          } else if i < j {
            CountTwo(handles, i, j);
          }
        }
      }
    }

    /** The change acts through handle i as the operation on entries does, no holder that should not see it
        is touched, and the number of items is returned. */
    twostate predicate Acted(i: nat, r: Entries, n: nat)
      requires i < |old(handles)|
      reads this, handles
    {
      && Held() && |handles| == |old(handles)| && n == |r|
      && forall j :: 0 <= j < |handles| ==>
           handles[j].Value() == if old(Sees(i, j)) then r else old(handles[j].Value())
    }

    /** In particular the handle itself holds the result, so does every holder of the same dictionary when it
        is pinned, and everything else is as it was. */
    twostate lemma ActedHolders(i: nat, r: Entries, n: nat, j: nat)
      requires i < |old(handles)| && j < |handles| && Acted(i, r, n)
      ensures |handles| == |old(handles)|
      ensures j == i || (old(handles)[j] == old(handles)[i] && old(handles[i].pinned)) ==> handles[j].Value() == r
      ensures j != i && (old(handles)[j] != old(handles)[i] || !old(handles[i].pinned)) ==>
                handles[j].Value() == old(handles[j].Value())
    {}

    method SetItem(i: nat, k: Item, v: Item) returns (n: nat)
      requires i < |handles| && Held()
      modifies this, handles
      ensures Acted(i, Put(old(handles[i].Value()), k, v), n)
    {
      hide Contents, Avl.Valid, Size, Put, Count;
      Prepare(i);
      n := handles[i].SetItem(k, v);
      CountItems(handles[i]);
    }

    /** array_delrange: when no key lies in the range nothing is copied. */
    method DelRange(i: nat, lo: Item, hi: Item) returns (n: nat)
      requires i < |handles| && Held()
      modifies this, handles
      ensures Acted(i, Without(old(handles[i].Value()), lo, hi), n)
    {
      hide Contents, Avl.Valid, Size, Order, Without, Within, Count;
      var a := handles[i];
      ghost var s := a.Value();
      CountItems(a);
      ghost var b, e := EndsOf(a, lo, hi);
      var first, last := AtOrAfter(a.tree, lo), AtOrBefore(a.tree, hi);
      if first.None? || last.None? {
        return a.items;
      }
      KeysCrossed(a, b, e);
      if Order(first.value.key, last.value.key) > 0 {
        return a.items;
      }
      Prepare(i);
      handles[i].DelFrom(first.value, last.value.key, b, e);
      n := handles[i].items;
      CountItems(handles[i]);
    }
  }

  lemma EmptyTree(t: Tree)
    requires t.Leaf?
    ensures Contents(t) == []
  {}

  lemma CountItems(a: Dict)
    requires a.Ok()
    ensures a.items == |a.Value()|
  {
    SizeIs(a.tree);
  }

  /** Where a range begins and ends in a dictionary, as lookup, next and prev find it. */
  lemma EndsOf(a: Dict, lo: Item, hi: Item) returns (i: nat, j: nat)
    requires a.Ok()
    ensures
      var s := a.Value();
      && i <= |s| && j <= |s|
      && AtOrAfter(a.tree, lo) == (if i < |s| then Some(s[i]) else None)
      && AtOrBefore(a.tree, hi) == (if j > 0 then Some(s[j - 1]) else None)
      && (i < j ==> Without(s, lo, hi) == s[..i] + s[j..]) && (j <= i ==> Without(s, lo, hi) == s)
  {
    hide Order, Without, Within, Contents, Ascending;
    i, j := RangeEnds(a.tree, lo, hi);
    EndsBound(a.Value(), lo, hi, i, j);
    RangeIs(a.Value(), lo, hi, i, j);
  }

  lemma KeysCrossed(a: Dict, i: nat, j: nat)
    requires a.Ok() && i < |a.Value()| && 0 < j <= |a.Value()|
    ensures Order(a.Value()[i].key, a.Value()[j - 1].key) > 0 <==> j <= i
  {
    Crossed(a.Value(), i, j);
  }
}
