/** Finding the parent of an object for environment lookups: a walk at two speeds that notices loops. */
module Parent {

  const NOTHING := -1
  const GLOBAL_ENVIRONMENT := 0

  datatype Type = Room | Thing | Exit | Player | Program | Garbage

  datatype Object = Object(typ: Type, vehicle: bool, home: int, location: int)

  type World = seq<Object>

  predicate IsRef(w: World, x: int) {
    x == NOTHING || 0 <= x < |w|
  }

  /** Every pointer of the database leads to an object or to nothing. */
  predicate Sane(w: World) {
    forall i :: 0 <= i < |w| ==> IsRef(w, w[i].home) && IsRef(w, w[i].location)
  }

  /** getparent_logic: a vehicle's parent is its home, or the home of the player it lives with. */
  function Logic(w: World, x: int): (r: int)
    requires Sane(w) && IsRef(w, x)
    ensures IsRef(w, r)
  {
    if x == NOTHING then NOTHING
    else if w[x].typ == Thing && w[x].vehicle then
      var h := w[x].home;
      if h != NOTHING && w[h].typ == Player then w[h].home else h
    else w[x].location
  }

  /** The n-th ancestor. */
  function Up(w: World, x: int, n: nat): (r: int)
    requires Sane(w) && IsRef(w, x)
    ensures IsRef(w, r)
  {
    if n == 0 then x else Logic(w, Up(w, x, n - 1))
  }

  predicate IsThing(w: World, x: int)
    requires IsRef(w, x)
  {
    x != NOTHING && w[x].typ == Thing
  }

  /** When the loop stops in round i, in which the slow pointer is the i-th ancestor and the fast one
      passes the ancestors 2i and 2i + 1. */
  predicate Stops(w: World, x: int, i: nat)
    requires Sane(w) && IsRef(w, x)
  {
    var y := Up(w, x, i);
    y == Up(w, x, 2 * i) || y == Up(w, x, 2 * i + 1) || !IsThing(w, y)
  }

  ghost predicate OnCycle(w: World, y: int)
    requires Sane(w) && IsRef(w, y)
  {
    exists p: nat :: p > 0 && Up(w, y, p) == y
  }

  lemma {:induction false} UpAdd(w: World, x: int, m: nat, n: nat)
    requires Sane(w) && IsRef(w, x)
    ensures Up(w, Up(w, x, m), n) == Up(w, x, m + n)
    decreases n
  {
    if n > 0 {
      UpAdd(w, x, m, n - 1);
    }
  }

  /** Equal ancestors stay equal further up. */
  lemma Shifted(w: World, x: int, a: nat, b: nat, k: nat)
    requires Sane(w) && IsRef(w, x) && Up(w, x, a) == Up(w, x, b)
    ensures Up(w, x, a + k) == Up(w, x, b + k)
  {
    UpAdd(w, x, a, k);
    UpAdd(w, x, b, k);
  }

  /** From the a-th ancestor on, the ancestors repeat with the period they once repeated with. */
  lemma {:induction false} Periodic(w: World, x: int, a: nat, p: nat, n: nat, k: nat)
    requires Sane(w) && IsRef(w, x) && Up(w, x, a) == Up(w, x, a + p) && a <= n
    ensures Up(w, x, n) == Up(w, x, n + k * p)
    decreases k
  {
    hide Up, Sane, IsRef;
    if k == 0 {
      assert n + k * p == n;
    } else {
      Periodic(w, x, a, p, n, k - 1);
      OneMore(k, p);
      var m := n + (k - 1) * p;
      Shifted(w, x, a, a + p, m - a);
    }
  }

  lemma OneMore(k: nat, p: nat)
    requires k > 0
    ensures (k - 1) * p + p == k * p && (k - 1) * p >= 0
  {}

  /** n + 1 numbers below n cannot all differ. */
  lemma {:induction false} Pigeons(s: seq<int>, n: nat) returns (i: nat, j: nat)
    requires |s| > n && forall k :: 0 <= k < |s| ==> 0 <= s[k] < n
    ensures i < j < |s| && s[i] == s[j]
    decreases n
  {
    if k :| 0 < k < |s| && s[k] == s[0] {
      i, j := 0, k;
    } else {
      // rename n - 1 to s[0], which no other entry uses
      var t := seq(|s| - 1, k requires 0 <= k < |s| - 1 => if s[k + 1] == n - 1 then s[0] else s[k + 1]);
      assert forall k :: 0 <= k < |t| ==> 0 <= t[k] < n - 1 by {
        forall k | 0 <= k < |t| ensures 0 <= t[k] < n - 1 {
          assert s[k + 1] != s[0];
        }
      }
      var a, b := Pigeons(t, n - 1);
      i, j := a + 1, b + 1;
    }
  }

  /** The loop stops within one round more than there are objects. */
  lemma StopsSoon(w: World, x: int) returns (i: nat)
    requires Sane(w) && IsRef(w, x)
    ensures 1 <= i <= |w| + 1 && Stops(w, x, i)
  {
    hide Up;
    if k :| 1 <= k <= |w| + 1 && !IsThing(w, Up(w, x, k)) {
      i := k;
    } else {
      var s := seq(|w| + 1, k requires 0 <= k < |w| + 1 => Up(w, x, k + 1));
      forall k | 0 <= k < |s| ensures 0 <= s[k] < |w| {
        assert IsThing(w, Up(w, x, k + 1));
      }
      var a, b := Pigeons(s, |w|);
      i := MeetingPoint(w, x, a + 1, b + 1);
    }
  }

  lemma MeetingPoint(w: World, x: int, a: nat, b: nat) returns (i: nat)
    requires Sane(w) && IsRef(w, x) && 1 <= a < b && Up(w, x, a) == Up(w, x, b)
    ensures a <= i < b && Up(w, x, i) == Up(w, x, 2 * i)
  {
    hide Up;
    var p := b - a;
    var k := (a + p - 1) / p;
    i := k * p;
    Periodic(w, x, a, p, i, k);
  }

  /** Where an object is for this purpose: a vehicle at its home, or at the home of the player it lives with;
      anything else at its location. */
  predicate LivesIn(w: World, x: int, y: int) {
    && 0 <= x < |w|
    && if w[x].typ != Thing || !w[x].vehicle then w[x].location == y
       else if 0 <= w[x].home < |w| && w[w[x].home].typ == Player then w[w[x].home].home == y
       else w[x].home == y
  }

  /** The object y lives in itself, or in something that lives in it. */
  ghost predicate Inside(w: World, y: int) {
    LivesIn(w, y, y) || exists z :: LivesIn(w, y, z) && LivesIn(w, z, y)
  }

  /** An object that lives in nothing has no parent, and one that lives in something that is no THING has that
      as its parent, unless that lives inside itself. */
  lemma {:induction false} FirstParent(w: World, x: int, y: int, i: nat)
    requires Sane(w) && LivesIn(w, x, y) && (y == NOTHING || (0 <= y < |w| && w[y].typ != Thing)) && Rounds(w, x, i)
    ensures Found(w, x, i) == if Inside(w, y) then GLOBAL_ENVIRONMENT else y
  {
    UpZero(w, x);
    UpNext(w, x, 0);
    UpNext(w, x, 1);
    UpNext(w, x, 2);
    hide Up;
    LivesInLogic(w, x, y);
    assert Up(w, x, 1) == y && Stops(w, x, 1) && i == 1;
    if y != NOTHING {
      var z := Up(w, x, 2);
      LivesInLogic(w, y, z);
      LivesInLogic(w, y, y);
      LivesInLogic(w, z, y);
      LivesOnce(w, y);
      assert Up(w, x, 3) == Logic(w, z);
    }
  }

  lemma LivesInLogic(w: World, x: int, y: int)
    requires Sane(w) && IsRef(w, x)
    ensures LivesIn(w, x, y) <==> x != NOTHING && Logic(w, x) == y
  {}

  lemma LivesOnce(w: World, y: int)
    ensures forall z, z' :: LivesIn(w, y, z) && LivesIn(w, y, z') ==> z == z'
  {}

  /** getparent, when things do not move by their own location. */
  method GetParent(w: World, x: int) returns (obj: int, ghost rounds: nat)
    requires Sane(w) && IsRef(w, x)
    ensures rounds <= |w| + 1 && Rounds(w, x, rounds)
    ensures forall i: nat :: Rounds(w, x, i) ==> obj == Found(w, x, i)
    ensures forall y :: LivesIn(w, x, y) && (y == NOTHING || (0 <= y < |w| && w[y].typ != Thing)) ==>
      obj == if Inside(w, y) then GLOBAL_ENVIRONMENT else y
  {
    hide Up, Inside, LivesIn;
    ghost var last := StopsSoon(w, x);
    UpZero(w, x);
    obj := x;
    var ptr := Logic(w, x);
    UpNext(w, x, 0);
    rounds := 0;
    var oldptr := ptr;
    var going := true;
    while going
      invariant IsRef(w, obj) && IsRef(w, ptr) && rounds <= last
      invariant obj == Up(w, x, rounds) && (going ==> ptr == Up(w, x, 2 * rounds + 1) && rounds < last)
      invariant forall i :: 1 <= i < rounds ==> !Stops(w, x, i)
      invariant going && rounds > 0 ==> !Stops(w, x, rounds)
      invariant !going ==> rounds >= 1 && Stops(w, x, rounds)
      invariant !going ==> oldptr == Up(w, x, 2 * rounds) && (ptr == oldptr || ptr == Up(w, x, 2 * rounds + 1))
      invariant !going && ptr == oldptr ==> obj == oldptr || ptr == Up(w, x, 2 * rounds + 1)
      decreases last - rounds, going
    {
      obj := Logic(w, obj);
      UpNext(w, x, rounds);
      UpNext(w, x, 2 * rounds + 1);
      UpNext(w, x, 2 * rounds + 2);
      rounds := rounds + 1;
      ptr := Logic(w, ptr);
      oldptr := ptr;
      if obj == oldptr {
        going := false;
      } else {
        ptr := Logic(w, ptr);
        going := obj != ptr && obj != NOTHING && w[obj].typ == Thing;
      }
    }
    if obj != NOTHING && (obj == oldptr || obj == ptr) {
      obj := GLOBAL_ENVIRONMENT;
    }
    forall y | LivesIn(w, x, y) && (y == NOTHING || (0 <= y < |w| && w[y].typ != Thing))
      ensures obj == if Inside(w, y) then GLOBAL_ENVIRONMENT else y
    {
      FirstParent(w, x, y, rounds);
    }
  }

  lemma UpZero(w: World, x: int)
    requires Sane(w) && IsRef(w, x)
    ensures Up(w, x, 0) == x
  {}

  lemma UpNext(w: World, x: int, n: nat)
    requires Sane(w) && IsRef(w, x)
    ensures Up(w, x, n + 1) == Logic(w, Up(w, x, n))
  {}

  /** The answer when the walk stops in round i: the ancestor it stopped at, or the global environment
      when the two pointers met. */
  function Found(w: World, x: int, i: nat): int
    requires Sane(w) && IsRef(w, x)
  {
    var y := Up(w, x, i);
    if y != NOTHING && (y == Up(w, x, 2 * i) || y == Up(w, x, 2 * i + 1)) then GLOBAL_ENVIRONMENT else y
  }

  /** The round in which the walk stops. */
  ghost predicate Rounds(w: World, x: int, i: nat)
    requires Sane(w) && IsRef(w, x)
  {
    i >= 1 && Stops(w, x, i) && forall j :: 1 <= j < i ==> !Stops(w, x, j)
  }

  // ----- what the answer means -----

  /** Meeting before the first ancestor that is no THING puts that ancestor on a cycle. */
  lemma MetMeansCycle(w: World, x: int, i: nat, d: nat, m: nat)
    requires Sane(w) && IsRef(w, x) && d > 0 && i <= m && Up(w, x, i) == Up(w, x, i + d)
    ensures OnCycle(w, Up(w, x, m))
  {
    hide Up;
    Shifted(w, x, i, i + d, m - i);
    UpAdd(w, x, m, d);
    assert Up(w, Up(w, x, m), d) == Up(w, x, m);
  }

  lemma {:induction false} NothingStays(w: World, n: nat)
    requires Sane(w)
    ensures Up(w, NOTHING, n) == NOTHING
  {
    if n > 0 {
      NothingStays(w, n - 1);
    }
  }

  /** The ancestors before the m-th are all THINGs. */
  ghost predicate ThingsTo(w: World, x: int, m: nat)
    requires Sane(w) && IsRef(w, x)
  {
    forall j :: 1 <= j < m ==> IsThing(w, Up(w, x, j))
  }

  /** The first ancestor that is no THING is found, if it is not on a cycle. */
  lemma {:induction false} FirstOther(w: World, x: int, m: nat, i: nat)
    requires Sane(w) && IsRef(w, x) && m >= 1 && ThingsTo(w, x, m) && Rounds(w, x, i)
    requires Up(w, x, m) != NOTHING && !IsThing(w, Up(w, x, m)) && !OnCycle(w, Up(w, x, m))
    ensures Found(w, x, i) == Up(w, x, m)
  {
    hide Up, OnCycle;
    assert Stops(w, x, m);
    assert i <= m;
    if Up(w, x, i) == Up(w, x, 2 * i) {
      MetMeansCycle(w, x, i, i, m);
    }
    if Up(w, x, i) == Up(w, x, 2 * i + 1) {
      MetMeansCycle(w, x, i, i + 1, m);
    }
    assert i == m;
  }

  /** d is a whole number of laps of length p. */
  predicate Laps(d: nat, p: nat)
    requires p > 0
  {
    d == 0 || (d >= p && Laps(d - p, p))
  }

  /** q ancestors further up stands the m-th ancestor again. */
  predicate Returns(w: World, x: int, m: nat, q: nat)
    requires Sane(w) && IsRef(w, x)
  {
    Up(w, x, m + q) == Up(w, x, m)
  }

  /** A whole number of laps, or one short of it, on the way round. */
  predicate Due(a: nat, p: nat, j: nat)
    requires p > 0
  {
    a <= j && (Laps(j, p) || Laps(j + 1, p))
  }

  /** From the a-th ancestor on the ancestors go round, and not before; the lap from the m-th has length p. */
  ghost predicate GoesRound(w: World, x: int, a: nat, p: nat, m: nat)
    requires Sane(w) && IsRef(w, x)
  {
    && a <= m && p > 0
    && OnCycle(w, Up(w, x, a)) && (forall j :: 0 <= j < a ==> !OnCycle(w, Up(w, x, j)))
    && Returns(w, x, m, p) && forall q :: 0 < q < p ==> !Returns(w, x, m, q)
  }

  /** The two pointers are at the same place in round j. */
  predicate Meets(w: World, x: int, j: nat)
    requires Sane(w) && IsRef(w, x)
  {
    Up(w, x, j) == Up(w, x, 2 * j) || Up(w, x, j) == Up(w, x, 2 * j + 1)
  }

  lemma {:induction false} WholeLaps(w: World, x: int, a: nat, p: nat, m: nat, d: nat)
    requires Sane(w) && IsRef(w, x) && GoesRound(w, x, a, p, m) && Up(w, x, m) == Up(w, x, m + d)
    ensures Laps(d, p)
    decreases d
  {
    hide Up, OnCycle;
    assert Returns(w, x, m, d);
    if d >= p {
      Shifted(w, x, m, m + p, d - p);
      WholeLaps(w, x, a, p, m, d - p);
    }
  }

  lemma {:induction false} OneLap(w: World, x: int, a: nat, p: nat, m: nat, j: nat)
    requires Sane(w) && IsRef(w, x) && GoesRound(w, x, a, p, m) && a <= j
    ensures Up(w, x, j) == Up(w, x, j + p)
  {
    hide Up;
    var q: nat :| q > 0 && Up(w, Up(w, x, a), q) == Up(w, x, a);
    UpAdd(w, x, a, q);
    Periodic(w, x, a, q, a, m);
    Enough(m, q);
    var far := a + m * q;
    Shifted(w, x, m, m + p, far - m);
    Shifted(w, x, a, far, p);
    Shifted(w, x, a, a + p, j - a);
  }

  lemma Enough(m: nat, q: nat)
    requires q > 0
    ensures m * q >= m
  {}

  lemma {:induction false} ManyLaps(w: World, x: int, a: nat, p: nat, m: nat, j: nat, d: nat)
    requires Sane(w) && IsRef(w, x) && p > 0 && GoesRound(w, x, a, p, m) && a <= j && Laps(d, p)
    ensures Up(w, x, j) == Up(w, x, j + d)
    decreases d
  {
    hide Up, GoesRound;
    if d > 0 {
      OneLap(w, x, a, p, m, j);
      ManyLaps(w, x, a, p, m, j + p, d - p);
    }
  }

  /** Equal ancestors, one of them no later than the m-th, are on the way round and whole laps apart. */
  lemma {:induction false} ApartBy(w: World, x: int, a: nat, p: nat, m: nat, j: nat, d: nat)
    requires Sane(w) && IsRef(w, x) && GoesRound(w, x, a, p, m) && j <= m && d > 0
    ensures Up(w, x, j) == Up(w, x, j + d) <==> a <= j && Laps(d, p)
  {
    hide Up;
    if Up(w, x, j) == Up(w, x, j + d) {
      UpAdd(w, x, j, d);
      assert OnCycle(w, Up(w, x, j));
      Shifted(w, x, j, j + d, m - j);
      WholeLaps(w, x, a, p, m, d);
    }
    if a <= j && Laps(d, p) {
      ManyLaps(w, x, a, p, m, j, d);
    }
  }

  lemma StillThere(w: World, x: int, i: nat, m: nat)
    requires Sane(w) && IsRef(w, x) && i <= m && Up(w, x, m) != NOTHING
    ensures Up(w, x, i) != NOTHING
  {
    hide Up;
    UpAdd(w, x, i, m - i);
    NothingStays(w, m - i);
  }

  /** An ancestor on a cycle has such a way round. */
  lemma SomeRound(w: World, x: int, m: nat) returns (a: nat, p: nat)
    requires Sane(w) && IsRef(w, x) && OnCycle(w, Up(w, x, m))
    ensures p > 0 && GoesRound(w, x, a, p, m)
  {
    hide Up;
    var q: nat :| q > 0 && Up(w, Up(w, x, m), q) == Up(w, x, m);
    UpAdd(w, x, m, q);
    assert Returns(w, x, m, q);
    p := 1;
    while !Returns(w, x, m, p)
      invariant 0 < p <= q && forall r :: 0 < r < p ==> !Returns(w, x, m, r)
      decreases q - p
    {
      p := p + 1;
    }
    a := 0;
    while !OnCycle(w, Up(w, x, a))
      invariant a <= m && forall j :: 0 <= j < a ==> !OnCycle(w, Up(w, x, j))
      decreases m - a
    {
      a := a + 1;
    }
  }

  /** When the first ancestor that is no THING lies on a cycle, the answer depends on whether the pointers
      have met by then: that is so when some round on the way round, no later than that ancestor, is a whole
      number of laps, or one short of it. */
  lemma {:induction false} OtherOnCycle(w: World, x: int, a: nat, p: nat, m: nat, i: nat)
    requires Sane(w) && IsRef(w, x) && m >= 1 && ThingsTo(w, x, m) && Rounds(w, x, i)
    requires Up(w, x, m) != NOTHING && !IsThing(w, Up(w, x, m)) && p > 0 && GoesRound(w, x, a, p, m)
    ensures Found(w, x, i) ==
            if exists j :: 1 <= j <= m && Due(a, p, j) then GLOBAL_ENVIRONMENT else Up(w, x, m)
  {
    hide Up, GoesRound, Laps;
    assert Stops(w, x, m);
    assert i <= m;
    forall j | 1 <= j <= m ensures Meets(w, x, j) <==> Due(a, p, j) {
      ApartBy(w, x, a, p, m, j, j);
      ApartBy(w, x, a, p, m, j, j + 1);
    }
    StillThere(w, x, i, m);
    if !Meets(w, x, i) {
      assert i == m;
      forall j | 1 <= j <= m ensures !Meets(w, x, j) {
        assert j < i ==> !Stops(w, x, j);
      }
    }
  }

  /** A chain of THINGs that runs out gives NOTHING. */
  lemma {:induction false} RunsOut(w: World, x: int, m: nat, i: nat)
    requires Sane(w) && IsRef(w, x) && m >= 1 && ThingsTo(w, x, m) && Rounds(w, x, i)
    requires Up(w, x, m) == NOTHING
    ensures Found(w, x, i) == NOTHING
  {
    hide Up;
    assert Stops(w, x, m);
    assert i <= m;
    if i < m {
      Later(w, x, i, 2 * i, m);
      Later(w, x, i, 2 * i + 1, m);
    }
  }

  /** An ancestor that comes back cannot be a THING when the chain has run out. */
  lemma {:induction false} Later(w: World, x: int, i: nat, j: nat, m: nat)
    requires Sane(w) && IsRef(w, x) && i < j && i < m && IsThing(w, Up(w, x, i)) && Up(w, x, m) == NOTHING
    ensures Up(w, x, i) != Up(w, x, j)
  {
    hide Up;
    if Up(w, x, i) == Up(w, x, j) {
      var p := j - i;
      Periodic(w, x, i, p, i, m);
      assert i + m * p >= m;
      UpAdd(w, x, m, i + m * p - m);
      NothingStays(w, i + m * p - m);
    }
  }

  /** A chain of THINGs that never ends, and so loops, gives the global environment. */
  lemma Loops(w: World, x: int, i: nat)
    requires Sane(w) && IsRef(w, x) && Rounds(w, x, i)
    requires forall j :: j >= 1 ==> IsThing(w, Up(w, x, j))
    ensures Found(w, x, i) == GLOBAL_ENVIRONMENT
  {
    hide Up;
    assert IsThing(w, Up(w, x, i));
  }
}
