/** Packed arrays shared by reference count: a change through one handle first takes a copy when others
hold the array too, unless it is pinned. */
module Packed {
  import opened Compare
  import opened Handles

  type Values = seq<Item>

  // ----- what the operations mean -----

  datatype Outcome = Refused(code: int) | Done(s: Values)

  predicate IsInt(k: Item) {
    k.Num? && k.kind == Integer
  }

  function Set(s: Values, k: Item, v: Item): Outcome {
    if !IsInt(k) || k.n < 0 || k.n > |s| then Refused(-1)
    else if k.n < |s| then Done(s[k.n := v])
    else Done(s + [v])
  }

  function Insert(s: Values, k: Item, v: Item): Outcome {
    if !IsInt(k) || k.n < 0 || k.n > |s| then Refused(-1) else Done(s[..k.n] + [v] + s[k.n..])
  }

  /** Overwriting from a place on, past the end if need be. */
  function Overlay(s: Values, at: nat, t: Values): Values
    requires at <= |s|
  {
    s[..at] + t + (if at + |t| < |s| then s[at + |t|..] else [])
  }

  function SetRange(s: Values, k: Item, t: Values): Outcome {
    if t == [] then Refused(|s|)
    else if !IsInt(k) || k.n < 0 || k.n > |s| then Refused(-1)
    else Done(Overlay(s, k.n, t))
  }

  function InsertRange(s: Values, k: Item, t: Values): Outcome {
    if t == [] then Refused(|s|)
    else if !IsInt(k) || k.n < 0 || k.n > |s| then Refused(-1)
    else Done(s[..k.n] + t + s[k.n..])
  }

  /** The bounds are clamped to the array; a range outside it is an error. */
  function DelRange(s: Values, lo: Item, hi: Item): Outcome {
    if !IsInt(lo) || !IsInt(hi) then Refused(-1)
    else if s == [] then Refused(0)
    else if lo.n >= |s| || hi.n < 0 then Refused(-1)
    else
      var first := if lo.n < 0 then 0 else lo.n;
      var last := if hi.n >= |s| then |s| - 1 else hi.n;
      if first > last then Refused(-1) else Done(s[..first] + s[last + 1..])
  }

  /** The items in a range, with the same clamping; Refused where the original returns no array. */
  function GetRange(s: Values, lo: Item, hi: Item): Outcome {
    if !IsInt(lo) || !IsInt(hi) || lo.n >= |s| || hi.n < 0 then Refused(-1)
    else
      var first := if lo.n < 0 then 0 else lo.n;
      var last := if hi.n >= |s| then |s| - 1 else hi.n;
      if first > last then Refused(-1) else Done(s[first..last + 1])
  }

  /** A range that can be read can be deleted and the other way round, and the two results are the
      array taken apart. */
  lemma GetAndDelete(s: Values, lo: Item, hi: Item)
    ensures GetRange(s, lo, hi).Done? <==> DelRange(s, lo, hi).Done?
    ensures GetRange(s, lo, hi).Done? ==>
              var first, d := (if lo.n < 0 then 0 else lo.n), DelRange(s, lo, hi).s;
              first <= |d| && s == InsertedAt(d, first, GetRange(s, lo, hi).s)
  {
    if GetRange(s, lo, hi).Done? {
      var first := if lo.n < 0 then 0 else lo.n;
      var last := if hi.n >= |s| then |s| - 1 else hi.n;
      TakenApart(s, first, last + 1);
    }
  }

  lemma TakenApart(s: Values, i: nat, j: nat)
    requires i <= j <= |s|
    ensures s == InsertedAt(s[..i] + s[j..], i, s[i..j])
  {
    var d := s[..i] + s[j..];
    assert d[..i] == s[..i] && d[i..] == s[j..];
  }

  function InsertedAt(s: Values, at: nat, t: Values): Values
    requires at <= |s|
  {
    s[..at] + t + s[at..]
  }

  /** Deleting what was inserted gives the array back; reading what was written gives what was written. */
  lemma RoundTrips(s: Values, k: Item, t: Values)
    requires IsInt(k) && 0 <= k.n <= |s| && t != []
    ensures InsertRange(s, k, t).Done? && SetRange(s, k, t).Done?
    ensures DelRange(InsertRange(s, k, t).s, k, Num(Integer, k.n + |t| - 1)) == Done(s)
    ensures GetRange(SetRange(s, k, t).s, k, Num(Integer, k.n + |t| - 1)) == Done(t)
  {
    var u := InsertRange(s, k, t).s;
    assert u[..k.n] == s[..k.n] && u[k.n + |t|..] == s[k.n..];
    assert s == s[..k.n] + s[k.n..];
    var w := SetRange(s, k, t).s;
    assert w[k.n..k.n + |t|] == t;
  }

  /** Only an int index from 0 up to the length is accepted. */
  predicate Indexes(s: Values, k: Item) {
    k.Num? && k.kind == Integer && 0 <= k.n <= |s|
  }

  /** An inserted item stands at its index, those before it stay, those from there on move up by one, and
      deleting it gives the array back. Every other index is refused. */
  lemma InsertIs(s: Values, k: Item, v: Item)
    ensures if Indexes(s, k) then Insert(s, k, v).Done? else Insert(s, k, v) == Refused(-1)
    ensures Indexes(s, k) ==>
              var u := Insert(s, k, v).s;
              && |u| == |s| + 1 && u[k.n] == v
              && (forall j :: 0 <= j < k.n ==> u[j] == s[j])
              && (forall j :: k.n <= j < |s| ==> u[j + 1] == s[j])
              && DelRange(u, k, k) == Done(s)
  {
    if Indexes(s, k) {
      OpenedAt(s, k.n, v);
      hide *;
      InsertOpens(s, k, v);
      DeleteOne(Opened(s, k.n, v), k);
    }
  }

  function Opened(s: Values, i: nat, v: Item): Values
    requires i <= |s|
  {
    s[..i] + [v] + s[i..]
  }

  lemma InsertOpens(s: Values, k: Item, v: Item)
    requires Indexes(s, k)
    ensures k.Num? && 0 <= k.n <= |s| && Insert(s, k, v) == Done(Opened(s, k.n, v))
  {}

  lemma OpenedAt(s: Values, i: nat, v: Item)
    requires i <= |s|
    ensures
      var u := Opened(s, i, v);
      && |u| == |s| + 1 && u[i] == v && u[..i] + u[i + 1..] == s
      && (forall j :: 0 <= j < i ==> u[j] == s[j]) && (forall j :: i <= j < |s| ==> u[j + 1] == s[j])
  {
    var u := Opened(s, i, v);
    assert u[..i] == s[..i] && u[i + 1..] == s[i..];
  }

  lemma DeleteOne(u: Values, k: Item)
    requires k.Num? && k.kind == Integer && 0 <= k.n < |u|
    ensures DelRange(u, k, k) == Done(u[..k.n] + u[k.n + 1..])
  {}

  /** An item that is set stands at its index, which may be the one behind the last, and nothing else changes.
      Every other index is refused. */
  lemma SetIs(s: Values, k: Item, v: Item)
    ensures if Indexes(s, k) then Set(s, k, v).Done? else Set(s, k, v) == Refused(-1)
    ensures Indexes(s, k) ==>
              var u := Set(s, k, v).s;
              && |u| == (if k.n == |s| then |s| + 1 else |s|) && u[k.n] == v
              && forall j :: 0 <= j < |s| && j != k.n ==> u[j] == s[j]
  {}

  /** The same for ranges: the inserted items stand from the index on, in their order; the written ones too,
      over what was there and past the end if need be. */
  lemma RangesAre(s: Values, k: Item, t: Values)
    ensures if t == [] then InsertRange(s, k, t) == Refused(|s|) == SetRange(s, k, t)
            else if Indexes(s, k) then InsertRange(s, k, t).Done? && SetRange(s, k, t).Done?
            else InsertRange(s, k, t) == Refused(-1) == SetRange(s, k, t)
    ensures t != [] && Indexes(s, k) ==>
              var u := InsertRange(s, k, t).s;
              && |u| == |s| + |t|
              && (forall j :: 0 <= j < k.n ==> u[j] == s[j])
              && (forall j :: 0 <= j < |t| ==> u[k.n + j] == t[j])
              && (forall j :: k.n <= j < |s| ==> u[j + |t|] == s[j])
    ensures t != [] && Indexes(s, k) ==>
              var u := SetRange(s, k, t).s;
              && |u| == (if k.n + |t| > |s| then k.n + |t| else |s|)
              && (forall j :: 0 <= j < |t| ==> u[k.n + j] == t[j])
              && (forall j :: 0 <= j < |s| && !(k.n <= j < k.n + |t|) ==> u[j] == s[j])
  {}

  /** An index of the array lies between the bounds. */
  ghost predicate Meets(s: Values, lo: Item, hi: Item) {
    && lo.Num? && lo.kind == Integer && hi.Num? && hi.kind == Integer
    && exists j :: 0 <= j < |s| && Between(lo.n, j, hi.n)
  }

  predicate Between(lo: int, j: int, hi: int) {
    lo <= j <= hi
  }

  lemma MeetsIff(s: Values, lo: Item, hi: Item)
    ensures Meets(s, lo, hi) <==>
            IsInt(lo) && IsInt(hi) && lo.n < |s| && 0 <= hi.n && lo.n <= hi.n && s != []
  {
    if IsInt(lo) && IsInt(hi) && lo.n < |s| && 0 <= hi.n && lo.n <= hi.n && s != [] {
      assert Between(lo.n, if lo.n < 0 then 0 else lo.n, hi.n);
    }
  }

  /** Exactly the items whose index lies between the bounds are read, */
  lemma RangeRead(s: Values, lo: Item, hi: Item)
    ensures GetRange(s, lo, hi).Done? <==> Meets(s, lo, hi)
    ensures Meets(s, lo, hi) ==>
              var g, n := GetRange(s, lo, hi).s, if lo.n < 0 then 0 else lo.n;
              && |g| == (if hi.n < |s| then hi.n + 1 else |s|) - n
              && forall j :: 0 <= j < |s| && Between(lo.n, j, hi.n) ==> j - n < |g| && g[j - n] == s[j]
  {
    MeetsIff(s, lo, hi);
    hide Meets;
  }

  /** and exactly they are deleted, the others closing up. When there is none both are refused. */
  lemma RangeDeleted(s: Values, lo: Item, hi: Item)
    ensures DelRange(s, lo, hi).Done? <==> Meets(s, lo, hi)
    ensures Meets(s, lo, hi) ==>
              var d, n := DelRange(s, lo, hi).s, if lo.n < 0 then 0 else lo.n;
              var w := (if hi.n < |s| then hi.n + 1 else |s|) - n;
              && w >= 0 && |d| == |s| - w
              && (forall j :: 0 <= j < |s| && j < lo.n ==> d[j] == s[j])
              && (forall j :: 0 <= j < |s| && j > hi.n ==> d[j - w] == s[j])
  {
    MeetsIff(s, lo, hi);
    hide Meets;
  }

  // ----- an array written into itself -----

  /** One turn of array_setrange's loop when source and target are the same array. */
  function OwnTurn(u: Values, at: nat, j: nat): Values
    requires j < |u| && at + j <= |u|
  {
    if at + j < |u| then u[at + j := u[j]] else u + [u[j]]
  }

  /** The array after n turns. */
  function OwnTurns(s: Values, at: nat, n: nat): (u: Values)
    requires at <= |s| && (at > 0 || n <= |s|)
    ensures |u| == if at + n <= |s| then |s| else at + n
    decreases n
  {
    if n == 0 then s else OwnTurn(OwnTurns(s, at, n - 1), at, n - 1)
  }

  /** The loop is over after n turns: there is no n-th item to go on with. */
  ghost predicate OwnOver(s: Values, at: nat, n: nat)
    requires at <= |s|
  {
    n > 0 && (at == 0 ==> n <= |s|) && n >= |OwnTurns(s, at, n)|
  }

  /** Writing an array into itself ends only from its first item on, and then it changes nothing: from any
      later one on the loop writes its own future. */
  lemma {:induction false} OwnEndsIff(s: Values, at: nat)
    requires s != [] && at <= |s|
    ensures (exists n :: OwnOver(s, at, n)) <==> at == 0
    ensures at == 0 ==> OwnTurns(s, 0, |s|) == s == Overlay(s, 0, s)
  {
    if at == 0 {
      OwnSame(s, |s|);
      assert OwnOver(s, 0, |s|);
    }
  }

  lemma {:induction false} OwnSame(s: Values, n: nat)
    requires n <= |s|
    ensures OwnTurns(s, 0, n) == s
    decreases n
  {
    if n > 0 {
      OwnSame(s, n - 1);
    }
  }

  /** Going round and round the first at places. */
  function Around(j: nat, at: nat): (k: nat)
    requires at > 0
    ensures k < at && k <= j && (j < at ==> k == j)
  {
    if j < at then j else Around(j - at, at)
  }

  /** What is inserted when an array is inserted into itself before its at-th item: the items up to there,
      over and over. */
  function Repeated(s: Values, at: nat): (r: Values)
    requires 0 < at <= |s|
    ensures |r| == |s|
  {
    seq(|s|, j requires 0 <= j < |s| => s[Around(j, at)])
  }

  /** That is the array itself exactly when the array repeats its first at items. */
  lemma {:induction false} RepeatedIff(s: Values, at: nat)
    requires 0 < at <= |s|
    ensures Repeated(s, at) == s <==> forall j :: at <= j < |s| ==> s[j] == s[j - at]
  {
    if Repeated(s, at) == s {
      forall j | at <= j < |s| ensures s[j] == s[j - at] {
        assert Repeated(s, at)[j] == s[Around(j, at)] && Repeated(s, at)[j - at] == s[Around(j - at, at)];
      }
    }
    if forall j :: at <= j < |s| ==> s[j] == s[j - at] {
      forall j | 0 <= j < |s| ensures Repeated(s, at)[j] == s[j] {
        RepeatsFrom(s, at, j);
      }
    }
  }

  lemma {:induction false} RepeatsFrom(s: Values, at: nat, j: nat)
    requires 0 < at <= |s| && j < |s| && forall i :: at <= i < |s| ==> s[i] == s[i - at]
    ensures s[j] == s[Around(j, at)]
    decreases j
  {
    if j >= at {
      RepeatsFrom(s, at, j - at);
    }
  }

  // ----- arrays and the handles that hold them -----

  class StkArray {
    var links: nat
    var pinned: bool
    var items: Values

    constructor (s: Values, pin: bool)
      ensures links == 1 && pinned == pin && items == s
    {
      links, pinned, items := 1, pin, s;
    }

    /** Replace an item, or append one. */
    method Put(at: nat, v: Item)
      requires at <= |items|
      modifies `items
      ensures items == if at < |old(items)| then old(items)[at := v] else old(items) + [v]
    {
      if at < |items| {
        items := items[at := v];
      } else {
        items := items + [v];
      }
    }

    /** Write t over the items from at on, one after the other. */
    method PutAll(at: nat, t: Values)
      requires at <= |items|
      modifies `items
      ensures items == Overlay(old(items), at, t)
    {
      var i := 0;
      while i < |t|
        invariant i <= |t| && at + i <= |items|
        invariant items == Overlay(old(items), at, t[..i])
      {
        OverlayMore(old(items), at, t, i);
        Put(at + i, t[i]);
        i := i + 1;
      }
      assert t[..i] == t;
    }

    /** Move the tail up by w places, from the end. */
    method ShiftUp(at: nat, w: nat)
      requires at + w <= |items|
      modifies `items
      ensures |items| == |old(items)| && items[..at] == old(items)[..at]
      ensures items[at + w..] == old(items)[at..|old(items)| - w]
    {
      var n := |items| - w;
      var i := n;
      while i > at
        invariant at <= i <= n && |items| == n + w
        invariant items[..i] == old(items)[..i]
        invariant items[i + w..] == old(items)[i..n]
      {
        i := i - 1;
        items := items[i + w := items[i]];
      }
    }

    /** Grow by one, move the tail up and fill the gap. */
    method OpenGap(at: nat, v: Item)
      requires at <= |items|
      modifies `items
      ensures items == old(items)[..at] + [v] + old(items)[at..]
    {
      ghost var n := |items|;
      items := items + [v];
      ShiftUp(at, 1);
      assert items[..at] == old(items)[..at] && items[at + 1..] == old(items)[at..];
      items := items[at := v];
      assert items == items[..at] + [v] + items[at + 1..];
    }

    /** Copy t over the items from at on. */
    method CopyIn(at: nat, t: Values)
      requires at + |t| <= |items|
      modifies `items
      ensures items == old(items)[..at] + t + old(items)[at + |t|..]
    {
      var j := 0;
      while j < |t|
        invariant j <= |t| && |items| == |old(items)|
        invariant items[..at + j] == old(items)[..at] + t[..j]
        invariant items[at + j..] == old(items)[at + j..]
      {
        ghost var before := items;
        items := items[at + j := t[j]];
        assert items[..at + j + 1] == before[..at + j] + [t[j]];
        j := j + 1;
      }
      assert items == items[..at + |t|] + items[at + |t|..];
    }

    /** Make room for t before the item at, and copy it there. */
    method OpenWide(at: nat, t: Values)
      requires at <= |items| && t != []
      modifies `items
      ensures items == old(items)[..at] + t + old(items)[at..]
    {
      ghost var n := |items|;
      items := items + t;
      ShiftUp(at, |t|);
      assert items[..at] == old(items)[..at] && items[at + |t|..] == old(items)[at..];
      CopyIn(at, t);
    }

    /** Write the array into itself from its first item on. */
    method PutOwn()
      requires items != []
      modifies `items
      ensures items == OwnTurns(old(items), 0, |old(items)|) == old(items)
    {
      OwnEndsIff(items, 0);
      var i := 0;
      while i < |items|
        invariant i <= |items| && items == old(items)
      {
        Put(i, items[i]);
        i := i + 1;
      }
    }

    /** Insert the array into itself: the tail moves up, and the items read back are those just written. */
    method OpenOwn(at: nat)
      requires 0 < at <= |items|
      modifies `items
      ensures items == old(items)[..at] + Repeated(old(items), at) + old(items)[at..]
    {
      ghost var s := items;
      var n := |items|;
      items := items + items;
      ShiftUp(at, n);
      ghost var tail := items[at + n..];
      SlicesOf(items, s, at, n);
      var i := 0;
      while i < n
        invariant i <= n && |items| == n + n && |s| == n
        invariant RoundTo(items, s, at, i) && items[at + n..] == tail
      {
        RoundMore(items, s, at, i);
        items := items[at + i := items[i]];
        i := i + 1;
      }
      RoundAll(items, s, at, n);
    }

    /** Move the tail down over the items from first to last, and shrink. */
    method CloseGap(first: nat, last: nat)
      requires first <= last < |items|
      modifies `items
      ensures items == old(items)[..first] + old(items)[last + 1..]
    {
      var n := |items|;
      var i, d := last + 1, first;
      while i < n
        invariant last < i <= n && d == first + (i - last - 1) && |items| == n
        invariant items[..d] == old(items)[..first] + old(items)[last + 1..i]
        invariant items[i..] == old(items)[i..]
      {
        ghost var before := items;
        assert before[i] == before[i..][0] == old(items)[i];
        assert old(items)[last + 1..i + 1] == old(items)[last + 1..i] + [old(items)[i]];
        items := items[d := items[i]];
        assert items[..d + 1] == before[..d] + [before[i]];
        i, d := i + 1, d + 1;
      }
      items := items[..n - (last - first + 1)];
    }
  }

  /** The items up to the place at + i are those of the first part, over and over. */
  ghost predicate RoundTo(u: Values, s: Values, at: nat, i: nat) {
    0 < at <= |s| && at + i <= |u| && forall j :: 0 <= j < at + i ==> u[j] == s[Around(j, at)]
  }

  lemma SlicesOf(u: Values, s: Values, at: nat, n: nat)
    requires 0 < at <= |s| == n && |u| == n + n && u[..at] == (s + s)[..at] && u[at + n..] == (s + s)[at..n]
    ensures RoundTo(u, s, at, 0) && u[at + n..] == s[at..]
  {
    forall j | 0 <= j < at ensures u[j] == s[j] {
      assert u[j] == u[..at][j];
    }
    assert (s + s)[at..n] == s[at..];
  }

  lemma {:induction false} RoundMore(u: Values, s: Values, at: nat, i: nat)
    requires RoundTo(u, s, at, i) && at + i < |u|
    ensures RoundTo(u[at + i := u[i]], s, at, i + 1)
    ensures u[at + i := u[i]][at + i + 1..] == u[at + i + 1..]
  {
    assert Around(at + i, at) == Around(i, at);
  }

  lemma {:induction false} RoundAll(u: Values, s: Values, at: nat, n: nat)
    requires RoundTo(u, s, at, n) && |s| == n && |u| == n + n
    ensures u == s[..at] + Repeated(s, at) + u[at + n..]
  {
    forall j | 0 <= j < n ensures u[at + j] == Repeated(s, at)[j] {
      assert Around(at + j, at) == Around(j, at);
    }
    assert u[..at] == s[..at];
    assert u[at..at + n] == Repeated(s, at);
  }

  lemma OverlayMore(s: Values, at: nat, t: Values, i: nat)
    requires at <= |s| && i < |t|
    ensures
      var u := Overlay(s, at, t[..i]);
      && at + i <= |u|
      && Overlay(s, at, t[..i + 1]) == if at + i < |u| then u[at + i := t[i]] else u + [t[i]]
  {
    var u, w := Overlay(s, at, t[..i]), Overlay(s, at, t[..i + 1]);
    assert t[..i + 1] == t[..i] + [t[i]];
    if at + i < |u| {
      assert forall j :: 0 <= j < |w| ==> w[j] == u[at + i := t[i]][j];
    } else {
      assert w == u + [t[i]];
    }
  }

  class Holders {
    var handles: seq<StkArray>

    /** Every array knows how many handles hold it. */
    ghost predicate Valid()
      reads this, handles
    {
      forall i :: 0 <= i < |handles| ==> handles[i].links == Count(handles, handles[i])
    }

    /** Who sees a change made through handle i: that handle, and every holder of a pinned array. */
    ghost predicate Sees(i: nat, j: nat)
      requires i < |handles| && j < |handles|
      reads this, handles
    {
      j == i || (handles[j] == handles[i] && handles[i].pinned)
    }

    /** The only holders of the array of handle i are those that are to see its changes. */
    ghost predicate Ready(i: nat)
      requires i < |handles|
      reads this, handles
    {
      forall j :: 0 <= j < |handles| && handles[j] == handles[i] ==> Sees(i, j)
    }

    /** array_decouple. */
    method Decouple(a: StkArray) returns (nu: StkArray)
      ensures fresh(nu) && nu.links == 1 && nu.pinned == a.pinned && nu.items == a.items
    {
      var copy: Values := seq(|a.items|, _ => Num(Integer, 0));
      var i := |a.items|;
      while i > 0
        invariant 0 <= i <= |a.items| == |copy|
        invariant copy[i..] == a.items[i..]
      {
        i := i - 1;
        copy := copy[i := a.items[i]];
      }
      nu := new StkArray(copy, a.pinned);
    }

    /** Before a change: a shared array that is not pinned is copied, and the handle holds the copy. */
    method Prepare(i: nat)
      requires i < |handles| && Valid()
      modifies this, handles
      ensures Valid() && |handles| == |old(handles)| && Ready(i)
      ensures forall j :: 0 <= j < |handles| ==>
        handles[j].items == old(handles[j].items) && (Sees(i, j) <==> old(Sees(i, j)))
      ensures forall j :: 0 <= j < |handles| ==> handles[j] in old(handles) || fresh(handles[j])
    {
      var a := handles[i];
      if a.links > 1 && !a.pinned {
        a.links := a.links - 1;
        var nu := Decouple(a);
        ghost var before := handles;
        handles := handles[i := nu];
        forall j | 0 <= j < |handles| ensures handles[j].links == Count(handles, handles[j]) {
          CountUpdate(before, i, nu, handles[j]);
          CountNone(before, nu);
        }
      } else {
        forall j | 0 <= j < |handles| && handles[j] == handles[i] ensures Sees(i, j) {
          if j < i {
            CountTwo(handles, j, i);
          } else if i < j {
            CountTwo(handles, i, j);
          }
        }
      }
    }

    /** A refused operation changes nothing; any other acts through handle i as the operation on
        sequences does, and no holder that should not see it is touched. */
    twostate predicate Acted(i: nat, r: Outcome, n: int)
      requires i < |old(handles)|
      reads this, handles
    {
      && Valid() && |handles| == |old(handles)|
      && n == (if r.Refused? then r.code else |r.s|)
      && forall j :: 0 <= j < |handles| ==>
           handles[j].items == if r.Done? && old(Sees(i, j)) then r.s else old(handles[j].items)
    }

    /** In particular the handle itself holds the result, so does every holder of the same array when it is
        pinned, and everything else is as it was. */
    twostate lemma ActedHolders(i: nat, r: Outcome, n: int, j: nat)
      requires i < |old(handles)| && j < |handles| && Acted(i, r, n)
      ensures |handles| == |old(handles)|
      ensures r.Done? && (j == i || (old(handles)[j] == old(handles)[i] && old(handles[i].pinned))) ==>
                handles[j].items == r.s
      ensures r.Refused? || (j != i && (old(handles)[j] != old(handles)[i] || !old(handles[i].pinned))) ==>
                handles[j].items == old(handles[j].items)
    {}

    method SetItem(i: nat, k: Item, v: Item) returns (n: int)
      requires i < |handles| && Valid()
      modifies this, handles
      ensures Acted(i, Set(old(handles[i].items), k, v), n)
    {
      var a := handles[i];
      if !IsInt(k) || k.n < 0 || k.n > |a.items| {
        return -1;
      }
      Prepare(i);
      handles[i].Put(k.n, v);
      n := |handles[i].items|;
    }

    method InsertItem(i: nat, k: Item, v: Item) returns (n: int)
      requires i < |handles| && Valid()
      modifies this, handles
      ensures Acted(i, Insert(old(handles[i].items), k, v), n)
    {
      var a := handles[i];
      if !IsInt(k) || k.n < 0 || k.n > |a.items| {
        return -1;
      }
      Prepare(i);
      handles[i].OpenGap(k.n, v);
      n := |handles[i].items|;
    }

    /** The change through handle i will be made to the very array that handle m holds. */
    ghost predicate Own(i: nat, m: nat)
      requires i < |handles| && m < |handles|
      reads this, handles
    {
      handles[i] == handles[m] && (handles[i].pinned || handles[i].links == 1)
    }

    /** Writing an array into itself never ends from a later item on, and changes nothing from the first. */
    method SetItems(i: nat, k: Item, m: nat) returns (n: int)
      requires i < |handles| && m < |handles| && Valid()
      requires Own(i, m) && IsInt(k) && 0 <= k.n <= |handles[i].items| && handles[i].items != [] ==> k.n == 0
      modifies this, handles
      ensures Acted(i, SetRange(old(handles[i].items), k, old(handles[m].items)), n)
    {
      var a, source := handles[i], handles[m];
      if source.items == [] {
        return |a.items|;
      }
      if !IsInt(k) || k.n < 0 || k.n > |a.items| {
        return -1;
      }
      if a == source && (a.pinned || a.links == 1) {
        SetOwn(i);
        n := |a.items|;
      } else {
        n := SetOther(i, k.n, source.items);
      }
    }

    method SetOwn(i: nat)
      requires i < |handles| && Valid() && handles[i].items != []
      modifies handles
      ensures Valid() && forall j :: 0 <= j < |handles| ==> handles[j].items == old(handles[j].items)
      ensures Overlay(old(handles[i].items), 0, old(handles[i].items)) == old(handles[i].items)
    {
      OwnEndsIff(handles[i].items, 0);
      handles[i].PutOwn();
    }

    method SetOther(i: nat, at: nat, t: Values) returns (n: int)
      requires i < |handles| && Valid() && at <= |handles[i].items|
      modifies this, handles
      ensures Acted(i, Done(Overlay(old(handles[i].items), at, t)), n)
    {
      Prepare(i);
      handles[i].PutAll(at, t);
      n := |handles[i].items|;
    }

    /** What insertion does: of the array into itself it inserts the items before the place, repeated. */
    ghost function Inserting(i: nat, k: Item, m: nat): Outcome
      requires i < |handles| && m < |handles|
      reads this, handles
    {
      var s := handles[i].items;
      if Own(i, m) && s != [] && IsInt(k) && 0 < k.n <= |s| then Done(s[..k.n] + Repeated(s, k.n) + s[k.n..])
      else InsertRange(s, k, handles[m].items)
    }

    /** Inserting an array into itself before its first item reads cells that have been cleared. */
    method InsertItems(i: nat, k: Item, m: nat) returns (n: int)
      requires i < |handles| && m < |handles| && Valid()
      requires !(Own(i, m) && IsInt(k) && k.n == 0 && handles[i].items != [])
      modifies this, handles
      ensures Acted(i, old(Inserting(i, k, m)), n)
    {
      var a, source := handles[i], handles[m];
      if source.items == [] {
        return |a.items|;
      }
      if !IsInt(k) || k.n < 0 || k.n > |a.items| {
        return -1;
      }
      if a == source && (a.pinned || a.links == 1) {
        n := InsertOwn(i, k.n);
      } else {
        n := InsertOther(i, k.n, source.items);
      }
    }

    method InsertOwn(i: nat, at: nat) returns (n: int)
      requires i < |handles| && Valid() && 0 < at <= |handles[i].items|
      requires handles[i].pinned || handles[i].links == 1
      modifies this, handles
      ensures
        var s := old(handles[i].items);
        Acted(i, Done(s[..at] + Repeated(s, at) + s[at..]), n)
    {
      Prepare(i);
      handles[i].OpenOwn(at);
      n := |handles[i].items|;
    }

    method InsertOther(i: nat, at: nat, t: Values) returns (n: int)
      requires i < |handles| && Valid() && at <= |handles[i].items| && t != []
      modifies this, handles
      ensures
        var s := old(handles[i].items);
        Acted(i, Done(s[..at] + t + s[at..]), n)
    {
      Prepare(i);
      handles[i].OpenWide(at, t);
      n := |handles[i].items|;
    }

    method DeleteItems(i: nat, lo: Item, hi: Item) returns (n: int)
      requires i < |handles| && Valid()
      modifies this, handles
      ensures Acted(i, DelRange(old(handles[i].items), lo, hi), n)
    {
      var a := handles[i];
      if !IsInt(lo) || !IsInt(hi) {
        return -1;
      }
      if a.items == [] {
        return 0;
      }
      var first, last := lo.n, hi.n;
      if first < 0 {
        first := 0;
      } else if first >= |a.items| {
        return -1;
      }
      if last >= |a.items| {
        last := |a.items| - 1;
      } else if last < 0 {
        return -1;
      }
      if first > last {
        return -1;
      }
      Prepare(i);
      handles[i].CloseGap(first, last);
      n := |handles[i].items|;
    }
  }
}
