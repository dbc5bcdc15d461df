/** Exits that lead to exits: the loop check, and linking that keeps the graph of exits free of cycles. */
module Exits {

  const NOTHING := -1
  const HOME := -3
  const MAX_LINKS: nat := 50

  datatype Type = Room | Thing | Exit | Player | Program | Garbage

  datatype Object = Object(typ: Type, dests: seq<int>)

  type Db = seq<Object>

  /** Typeof: HOME counts as a room. */
  function TypeOf(w: Db, x: int): Type {
    if x == HOME then Room else if 0 <= x < |w| then w[x].typ else Garbage
  }

  predicate IsExit(w: Db, x: int) {
    TypeOf(w, x) == Exit
  }

  function Dests(w: Db, x: int): seq<int> {
    if 0 <= x < |w| then w[x].dests else []
  }

  // ----- reaching -----

  /** One follows links from exit to exit; only the last place may be something else. */
  ghost predicate Walk(w: Db, p: seq<int>) {
    |p| > 0 && forall i :: 0 <= i < |p| - 1 ==> Linked(w, p[i], p[i + 1])
  }

  ghost predicate Linked(w: Db, x: int, y: int) {
    IsExit(w, x) && y in Dests(w, x)
  }

  ghost predicate WalkTo(w: Db, p: seq<int>, x: int, y: int) {
    Walk(w, p) && p[0] == x && p[|p| - 1] == y
  }

  ghost predicate Reaches(w: Db, x: int, y: int) {
    exists p :: WalkTo(w, p, x, y)
  }

  /** No exit leads back to itself. */
  ghost predicate Acyclic(w: Db) {
    forall x, y :: Linked(w, x, y) ==> !Reaches(w, y, x)
  }

  lemma ReachSelf(w: Db, x: int)
    ensures Reaches(w, x, x)
  {
    assert WalkTo(w, [x], x, x);
  }

  lemma ReachStep(w: Db, x: int, d: int, y: int)
    requires Linked(w, x, d) && Reaches(w, d, y)
    ensures Reaches(w, x, y)
  {
    hide Linked;
    var p :| WalkTo(w, p, d, y);
    var q := [x] + p;
    forall i | 0 <= i < |q| - 1 ensures Linked(w, q[i], q[i + 1]) {
      if i > 0 {
        assert q[i] == p[i - 1] && q[i + 1] == p[i];
      }
    }
    assert WalkTo(w, q, x, y);
  }

  lemma ReachFirst(w: Db, x: int, y: int) returns (d: int)
    requires Reaches(w, x, y) && x != y
    ensures Linked(w, x, d) && Reaches(w, d, y)
  {
    hide Linked;
    var p :| WalkTo(w, p, x, y);
    d := p[1];
    var q := p[1..];
    forall i | 0 <= i < |q| - 1 ensures Linked(w, q[i], q[i + 1]) {
      assert Linked(w, p[i + 1], p[i + 2]);
    }
    assert Linked(w, p[0], p[1]);
    assert WalkTo(w, q, d, y);
  }

  /** The objects an exit reaches, whose number goes down along every link when there are no cycles. */
  ghost function Reached(w: Db, x: int): set<int> {
    set y | 0 <= y < |w| && Reaches(w, x, y)
  }

  lemma RankFalls(w: Db, x: int, d: int)
    requires Acyclic(w) && Linked(w, x, d)
    ensures |Reached(w, d)| < |Reached(w, x)|
  {
    hide Reaches;
    forall y | y in Reached(w, d) ensures y in Reached(w, x) {
      ReachStep(w, x, d, y);
    }
    ReachSelf(w, x);
    assert x in Reached(w, x) - Reached(w, d);
    Smaller(Reached(w, d), Reached(w, x), x);
  }

  lemma Smaller(a: set<int>, b: set<int>, x: int)
    requires a <= b && x in b && x !in a
    ensures |a| < |b|
  {
    assert b == a + (b - a) && x in b - a;
  }

  // ----- the check -----

  /** exit_loop_check: it ends on every graph without cycles, and tells whether source can be reached
      from dest. */
  method ExitLoopCheck(w: Db, source: int, dest: int) returns (found: bool)
    requires Acyclic(w)
    ensures found == Reaches(w, dest, source)
    decreases |Reached(w, dest)|
  {
    hide Reaches, Acyclic, Linked;
    if source == dest {
      ReachSelf(w, dest);
      return true;
    }
    if !IsExit(w, dest) {
      Stuck(w, dest, source);
      return false;
    }
    var i := 0;
    while i < |Dests(w, dest)|
      invariant i <= |Dests(w, dest)|
      invariant forall j :: 0 <= j < i ==> !Reaches(w, Dests(w, dest)[j], source)
    {
      var d := Dests(w, dest)[i];
      LinkedAt(w, dest, i);
      if d == source {
        ReachSelf(w, d);
        ReachStep(w, dest, d, source);
        return true;
      }
      if IsExit(w, d) {
        RankFalls(w, dest, d);
        var deeper := ExitLoopCheck(w, source, d);
        if deeper {
          ReachStep(w, dest, d, source);
          return true;
        }
      } else {
        Stuck(w, d, source);
      }
      i := i + 1;
    }
    NoWayOn(w, dest, source);
    found := false;
  }

  lemma LinkedAt(w: Db, x: int, i: nat)
    requires IsExit(w, x) && i < |Dests(w, x)|
    ensures Linked(w, x, Dests(w, x)[i])
  {}

  /** From anything but an exit one reaches only that. */
  lemma Stuck(w: Db, x: int, y: int)
    requires !IsExit(w, x) && x != y
    ensures !Reaches(w, x, y)
  {
    hide Reaches;
    if Reaches(w, x, y) {
      var d := ReachFirst(w, x, y);
    }
  }

  lemma NoWayOn(w: Db, x: int, y: int)
    requires x != y && forall j :: 0 <= j < |Dests(w, x)| ==> !Reaches(w, Dests(w, x)[j], y)
    ensures !Reaches(w, x, y)
  {
    hide Reaches;
    if Reaches(w, x, y) {
      var d := ReachFirst(w, x, y);
    }
  }

  // ----- linking -----

  predicate Exclusive(t: Type) {
    t == Room || t == Player || t == Program
  }

  ghost predicate HasExclusive(w: Db, dests: seq<int>) {
    exists j :: 0 <= j < |dests| && Exclusive(TypeOf(w, dests[j]))
  }

  lemma ExclusiveMore(w: Db, dests: seq<int>, d: int)
    ensures HasExclusive(w, dests + [d]) <==> HasExclusive(w, dests) || Exclusive(TypeOf(w, d))
  {
    var s := dests + [d];
    assert s[|dests|] == d && forall j :: 0 <= j < |dests| ==> s[j] == dests[j];
  }

  /** One destination of the list: whether it is taken, after some others were. */
  ghost predicate Accepts(w: Db, e: int, taken: seq<int>, d: int) {
    && d != NOTHING
    && !(Exclusive(TypeOf(w, d)) && HasExclusive(w, taken))
    && (IsExit(w, d) ==> !Reaches(w, d, e))
    && TypeOf(w, d) != Garbage
  }

  /** The destinations _link_exit keeps of those named, in order. */
  ghost function Kept(w: Db, e: int, taken: seq<int>, named: seq<int>): seq<int>
    decreases |named|
  {
    if named == [] || |taken| >= MAX_LINKS then taken
    else if Accepts(w, e, taken, named[0]) then Kept(w, e, taken + [named[0]], named[1..])
    else Kept(w, e, taken, named[1..])
  }

  /** A destination an exit may be linked to. */
  ghost predicate Linkable(w: Db, e: int, d: int) {
    d != NOTHING && TypeOf(w, d) != Garbage && (TypeOf(w, d) == Exit ==> !Reaches(w, d, e))
  }

  /** A room, a player or a program. */
  predicate OnlyOne(w: Db, d: int) {
    var t := TypeOf(w, d);
    t != Exit && t != Thing && t != Garbage
  }

  /** Why the i-th name is not kept, when those numbered in idx are: it is not linkable, it is a second room,
      player or program, or all the room was taken before. */
  ghost predicate PassedOver(w: Db, e: int, named: seq<int>, idx: seq<nat>, i: nat)
    requires i < |named| && forall j :: 0 <= j < |idx| ==> idx[j] < |named|
  {
    || !Linkable(w, e, named[i])
    || (OnlyOne(w, named[i]) && exists j :: 0 <= j < |idx| && idx[j] < i && OnlyOne(w, named[idx[j]]))
    || (|idx| == MAX_LINKS && idx[MAX_LINKS - 1] < i)
  }

  /** Of the first n names those numbered in idx were kept, in their order, and only those were not for which
      there is a reason. */
  ghost predicate ChosenOf(w: Db, e: int, named: seq<int>, n: nat, dests: seq<int>, idx: seq<nat>) {
    && n <= |named| && |idx| == |dests| <= MAX_LINKS
    && (forall j :: 0 <= j < |idx| ==> idx[j] < n && dests[j] == named[idx[j]])
    && (forall j, m :: 0 <= j < m < |idx| ==> idx[j] < idx[m])
    && forall i :: 0 <= i < n ==> (i in idx <==> !PassedOver(w, e, named, idx, i))
  }

  ghost predicate Chosen(w: Db, e: int, named: seq<int>, dests: seq<int>, idx: seq<nat>) {
    ChosenOf(w, e, named, |named|, dests, idx)
  }

  /** Keeping one more name, or not, leaves the reasons for those before it as they were. */
  lemma ReasonsStay(w: Db, e: int, named: seq<int>, n: nat, dests: seq<int>, idx: seq<nat>, i: nat)
    requires ChosenOf(w, e, named, n, dests, idx) && |idx| < MAX_LINKS && i < n < |named|
    ensures PassedOver(w, e, named, idx + [n], i) <==> PassedOver(w, e, named, idx, i)
  {
    hide Linkable, OnlyOne;
    var idx' := idx + [n];
    assert forall j :: 0 <= j < |idx| ==> idx'[j] == idx[j];
    assert idx'[|idx|] == n;
  }

  lemma AcceptsIff(w: Db, e: int, named: seq<int>, n: nat, dests: seq<int>, idx: seq<nat>)
    requires ChosenOf(w, e, named, n, dests, idx) && |idx| < MAX_LINKS && n < |named|
    ensures Accepts(w, e, dests, named[n]) <==> !PassedOver(w, e, named, idx, n)
    ensures PassedOver(w, e, named, idx + [n], n) <==> PassedOver(w, e, named, idx, n)
  {
    hide Reaches, TypeOf;
    var idx' := idx + [n];
    assert forall j :: 0 <= j < |idx| ==> idx'[j] == idx[j] && dests[j] == named[idx[j]];
    assert HasExclusive(w, dests) <==> exists j :: 0 <= j < |idx| && idx[j] < n && OnlyOne(w, named[idx[j]]) by {
      forall j | 0 <= j < |idx| ensures Exclusive(TypeOf(w, dests[j])) <==> OnlyOne(w, named[idx[j]]) {
      }
    }
  }

  /** Everything that may be kept is kept. */
  lemma {:induction false} KeptFrom(w: Db, e: int, named: seq<int>, n: nat, dests: seq<int>, idx: seq<nat>)
    returns (idx': seq<nat>)
    requires ChosenOf(w, e, named, n, dests, idx)
    ensures Chosen(w, e, named, Kept(w, e, dests, named[n..]), idx')
    decreases |named| - n
  {
    hide Accepts, PassedOver;
    if n == |named| {
      idx' := idx;
    } else if |dests| >= MAX_LINKS {
      AllTaken(w, e, named, n, dests, idx);
      idx' := idx;
    } else {
      assert named[n..][0] == named[n] && named[n..][1..] == named[n + 1..];
      AcceptsIff(w, e, named, n, dests, idx);
      var more := Accepts(w, e, dests, named[n]);
      OneMoreName(w, e, named, n, dests, idx);
      idx' := KeptFrom(w, e, named, n + 1, if more then dests + [named[n]] else dests, if more then idx + [n] else idx);
    }
  }

  lemma AllTaken(w: Db, e: int, named: seq<int>, n: nat, dests: seq<int>, idx: seq<nat>)
    requires ChosenOf(w, e, named, n, dests, idx) && |dests| == MAX_LINKS
    ensures Chosen(w, e, named, dests, idx)
  {
    hide Linkable, OnlyOne;
  }

  lemma OneMoreName(w: Db, e: int, named: seq<int>, n: nat, dests: seq<int>, idx: seq<nat>)
    requires ChosenOf(w, e, named, n, dests, idx) && |idx| < MAX_LINKS && n < |named|
    requires PassedOver(w, e, named, idx + [n], n) <==> PassedOver(w, e, named, idx, n)
    ensures if PassedOver(w, e, named, idx, n) then ChosenOf(w, e, named, n + 1, dests, idx)
            else ChosenOf(w, e, named, n + 1, dests + [named[n]], idx + [n])
  {
    hide PassedOver;
    var idx' := idx + [n];
    forall i | 0 <= i < n ensures PassedOver(w, e, named, idx', i) <==> PassedOver(w, e, named, idx, i) {
      ReasonsStay(w, e, named, n, dests, idx, i);
    }
    assert forall i :: i in idx' <==> i in idx || i == n;
    assert n !in idx;
  }

  lemma KeptChosen(w: Db, e: int, named: seq<int>) returns (idx: seq<nat>)
    ensures Chosen(w, e, named, Kept(w, e, [], named), idx)
  {
    hide PassedOver, Kept;
    assert named[0..] == named;
    idx := KeptFrom(w, e, named, 0, [], []);
  }

  /** Something is kept exactly when one of the names is linkable. */
  lemma KeptSome(w: Db, e: int, named: seq<int>)
    ensures Kept(w, e, [], named) != [] <==> exists i :: 0 <= i < |named| && Linkable(w, e, named[i])
  {
    hide Kept, Linkable;
    var idx := KeptChosen(w, e, named);
    if idx != [] {
      assert idx[0] in idx && !PassedOver(w, e, named, idx, idx[0]);
    }
    forall i | 0 <= i < |named| && Linkable(w, e, named[i]) ensures idx != [] {
      assert i in idx <==> !PassedOver(w, e, named, idx, i);
    }
  }

  lemma {:induction false} NoMoreThan(idx: seq<nat>, n: nat)
    requires forall j :: 0 <= j < |idx| ==> idx[j] < n
    requires forall j, m :: 0 <= j < m < |idx| ==> idx[j] < idx[m]
    ensures |idx| <= n
    decreases |idx|
  {
    if idx != [] {
      NoMoreThan(idx[..|idx| - 1], idx[|idx| - 1]);
    }
  }

  /** One name is kept when it is linkable; a room always is. */
  lemma OneName(w: Db, e: int, d: int)
    ensures Kept(w, e, [], [d]) == if Linkable(w, e, d) then [d] else []
    ensures d == HOME || (0 <= d < |w| && w[d].typ == Room) ==> Kept(w, e, [], [d]) == [d]
  {
    hide Kept, Reaches;
    var idx := KeptChosen(w, e, [d]);
    KeptSome(w, e, [d]);
    assert [d][0] == d;
    NoMoreThan(idx, 1);
  }

  /** _link_exit, on the destinations its names stand for: all that may be kept are, in their order. */
  method LinkExit(w: Db, e: int, named: seq<int>) returns (dests: seq<int>)
    requires Acyclic(w)
    ensures dests == Kept(w, e, [], named)
    ensures exists idx :: Chosen(w, e, named, dests, idx)
  {
    hide Reaches, Acyclic, Chosen;
    ghost var idx := KeptChosen(w, e, named);
    dests := [];
    var prdest := false;
    var i := 0;
    while i < |named|
      invariant i <= |named| && |dests| < MAX_LINKS
      invariant prdest <==> HasExclusive(w, dests)
      invariant Kept(w, e, dests, named[i..]) == Kept(w, e, [], named)
    {
      var d := named[i];
      i := i + 1;
      assert named[i - 1..][1..] == named[i..];
      ExclusiveMore(w, dests, d);
      if d == NOTHING {
        continue;
      }
      match TypeOf(w, d) {
        case Exit =>
          var loop := ExitLoopCheck(w, e, d);
          if loop {
            continue;
          }
          dests := dests + [d];
        case Thing =>
          dests := dests + [d];
        case Garbage =>
        case _ =>
          if prdest {
            continue;
          }
          dests := dests + [d];
          prdest := true;
      }
      if |dests| >= MAX_LINKS {
        return;
      }
    }
  }

  /** At most MAX_LINKS destinations, at most one of them a room, player or program, and none of them
      leads back to the exit. */
  ghost predicate GoodDests(w: Db, e: int, dests: seq<int>) {
    && |dests| <= MAX_LINKS
    && (forall i, j :: 0 <= i < j < |dests| ==>
          !(Exclusive(TypeOf(w, dests[i])) && Exclusive(TypeOf(w, dests[j]))))
    && (forall i :: 0 <= i < |dests| ==> TypeOf(w, dests[i]) != Garbage && (IsExit(w, dests[i]) ==> !Reaches(w, dests[i], e)))
  }

  lemma {:induction false} KeptGood(w: Db, e: int, taken: seq<int>, named: seq<int>)
    requires GoodDests(w, e, taken)
    ensures GoodDests(w, e, Kept(w, e, taken, named))
    decreases |named|
  {
    hide Reaches;
    if named != [] && |taken| < MAX_LINKS {
      KeptGood(w, e, if Accepts(w, e, taken, named[0]) then taken + [named[0]] else taken, named[1..]);
    }
  }

  /** The database with new destinations for an exit. */
  function SetDests(w: Db, e: int, dests: seq<int>): Db
    requires 0 <= e < |w|
  {
    w[e := w[e].(dests := dests)]
  }

  lemma SameTypes(w: Db, e: int, dests: seq<int>)
    requires 0 <= e < |w|
    ensures forall x :: TypeOf(SetDests(w, e, dests), x) == TypeOf(w, x)
    ensures forall x :: x != e ==> Dests(SetDests(w, e, dests), x) == Dests(w, x)
    ensures Dests(SetDests(w, e, dests), e) == dests
  {}

  /** A walk to e that did not leave e before is a walk of the old database. */
  lemma {:induction false} OldWalk(w: Db, e: int, dests: seq<int>, p: seq<int>)
    requires 0 <= e < |w| && Walk(SetDests(w, e, dests), p)
    ensures forall i :: 0 <= i < |p| && p[i] == e && (forall j :: 0 <= j < i ==> p[j] != e) ==> Reaches(w, p[0], e)
  {
    SameTypes(w, e, dests);
    hide IsExit, Dests, TypeOf;
    forall i | 0 <= i < |p| && p[i] == e && (forall j :: 0 <= j < i ==> p[j] != e) ensures Reaches(w, p[0], e) {
      var q := p[..i + 1];
      forall j | 0 <= j < |q| - 1 ensures Linked(w, q[j], q[j + 1]) {
        assert Linked(SetDests(w, e, dests), p[j], p[j + 1]) && p[j] != e;
      }
      assert WalkTo(w, q, p[0], e);
    }
  }

  /** In the new database nothing reaches e that did not before. */
  lemma StillNoWay(w: Db, e: int, dests: seq<int>, d: int)
    requires 0 <= e < |w| && !Reaches(w, d, e)
    ensures !Reaches(SetDests(w, e, dests), d, e)
  {
    if Reaches(SetDests(w, e, dests), d, e) {
      var p :| WalkTo(SetDests(w, e, dests), p, d, e);
      OldWalk(w, e, dests, p);
      var i := FirstOf(p, e);
      assert false;
    }
  }

  lemma {:induction false} FirstOf(p: seq<int>, e: int) returns (i: nat)
    requires e in p
    ensures i < |p| && p[i] == e && forall j :: 0 <= j < i ==> p[j] != e
    decreases |p|
  {
    if p[0] == e {
      i := 0;
    } else {
      assert e in p[1..];
      var k := FirstOf(p[1..], e);
      i := k + 1;
      forall j | 0 <= j < i ensures p[j] != e {
        if j > 0 {
          assert p[j] == p[1..][j - 1];
        }
      }
    }
  }

  /** Joining two walks. */
  lemma ReachOn(w: Db, x: int, y: int, z: int)
    requires Reaches(w, x, y) && Reaches(w, y, z)
    ensures Reaches(w, x, z)
  {
    hide Linked;
    var p :| WalkTo(w, p, x, y);
    var q :| WalkTo(w, q, y, z);
    var r := p + q[1..];
    forall i | 0 <= i < |r| - 1 ensures Linked(w, r[i], r[i + 1]) {
      if i >= |p| - 1 {
        assert r[i] == q[i - (|p| - 1)] && r[i + 1] == q[i - (|p| - 1) + 1];
      } else {
        assert r[i] == p[i] && r[i + 1] == p[i + 1];
      }
    }
    assert WalkTo(w, r, x, z);
  }

  /** Linking an exit to destinations that do not lead back to it makes no cycle. */
  lemma LinkKeepsAcyclic(w: Db, e: int, dests: seq<int>)
    requires 0 <= e < |w| && Acyclic(w)
    requires IsExit(w, e) ==> forall i :: 0 <= i < |dests| ==> !Reaches(w, dests[i], e)
    ensures Acyclic(SetDests(w, e, dests))
  {
    var w' := SetDests(w, e, dests);
    SameTypes(w, e, dests);
    hide Reaches, IsExit, Dests, TypeOf;
    forall x, y | Linked(w', x, y) ensures !Reaches(w', y, x) {
      if Reaches(w', y, x) {
        if x == e {
          var i :| 0 <= i < |dests| && dests[i] == y;
          StillNoWay(w, e, dests, y);
        } else if Reaches(w', y, e) {
          Detour(w, e, dests, x, y);
        } else {
          AvoidsExit(w, e, dests, y, x);
          assert false;
        }
      }
    }
  }

  /** A cycle through e would leave e for a destination that leads back to it. */
  lemma Detour(w: Db, e: int, dests: seq<int>, x: int, y: int)
    requires 0 <= e < |w| && Acyclic(w) && x != e
    requires IsExit(w, e) ==> forall i :: 0 <= i < |dests| ==> !Reaches(w, dests[i], e)
    requires Linked(SetDests(w, e, dests), x, y) && Reaches(SetDests(w, e, dests), y, e)
    ensures !Reaches(SetDests(w, e, dests), y, x)
  {
    var w' := SetDests(w, e, dests);
    SameTypes(w, e, dests);
    hide Reaches, IsExit, Dests, TypeOf;
    if !Reaches(w', y, x) {
    } else if Reaches(w', e, x) {
      var d := ReachFirst(w', e, x);
      ReachStep(w', x, y, e);
      ReachOn(w', d, x, e);
      var i :| 0 <= i < |dests| && dests[i] == d;
      StillNoWay(w, e, dests, d);
    } else {
      WithoutExit(w, e, dests, y, x);
    }
  }

  /** When e does not lead to x, a walk to x does not pass e. */
  lemma WithoutExit(w: Db, e: int, dests: seq<int>, y: int, x: int)
    requires 0 <= e < |w| && x != e && Reaches(SetDests(w, e, dests), y, x) && !Reaches(SetDests(w, e, dests), e, x)
    ensures Reaches(w, y, x)
  {
    var w' := SetDests(w, e, dests);
    SameTypes(w, e, dests);
    hide IsExit, Dests, TypeOf;
    var p :| WalkTo(w', p, y, x);
    forall i | 0 <= i < |p| - 1 ensures Linked(w, p[i], p[i + 1]) {
      assert Linked(w', p[i], p[i + 1]);
      if p[i] == e {
        Suffix(w', p, i);
      }
    }
    assert WalkTo(w, p, y, x);
  }

  lemma Suffix(w: Db, p: seq<int>, i: nat)
    requires Walk(w, p) && i < |p|
    ensures Reaches(w, p[i], p[|p| - 1])
  {
    hide Linked;
    var q := p[i..];
    forall j | 0 <= j < |q| - 1 ensures Linked(w, q[j], q[j + 1]) {
      assert Linked(w, p[i + j], p[i + j + 1]);
    }
    assert WalkTo(w, q, p[i], p[|p| - 1]);
  }

  lemma Prefix(w: Db, p: seq<int>, i: nat)
    requires Walk(w, p) && i < |p|
    ensures Reaches(w, p[0], p[i])
  {
    hide Linked;
    var q := p[..i + 1];
    forall j | 0 <= j < |q| - 1 ensures Linked(w, q[j], q[j + 1]) {
      assert Linked(w, p[j], p[j + 1]);
    }
    assert WalkTo(w, q, p[0], p[i]);
  }

  /** When y does not lead to e, a walk from y does not pass e. */
  lemma AvoidsExit(w: Db, e: int, dests: seq<int>, y: int, x: int)
    requires 0 <= e < |w| && Reaches(SetDests(w, e, dests), y, x) && !Reaches(SetDests(w, e, dests), y, e)
    ensures Reaches(w, y, x)
  {
    var w' := SetDests(w, e, dests);
    SameTypes(w, e, dests);
    hide IsExit, Dests, TypeOf;
    var p :| WalkTo(w', p, y, x);
    forall i | 0 <= i < |p| - 1 ensures Linked(w, p[i], p[i + 1]) {
      assert Linked(w', p[i], p[i + 1]);
      if p[i] == e {
        Prefix(w', p, i);
      }
    }
    assert WalkTo(w, p, y, x);
  }

  // ----- any sequence of link and unlink commands -----

  /** Every exit has good destinations and no exit leads back to itself. */
  ghost predicate Valid(w: Db) {
    && Acyclic(w)
    && forall e :: 0 <= e < |w| && w[e].typ == Exit ==> Limited(w, w[e].dests)
  }

  ghost predicate Limited(w: Db, dests: seq<int>) {
    && |dests| <= MAX_LINKS
    && forall i, j :: 0 <= i < j < |dests| ==> !(Exclusive(TypeOf(w, dests[i])) && Exclusive(TypeOf(w, dests[j])))
  }

  class Database {
    var objs: Db

    /** The exit part of do_link: only an exit without destinations is linked. */
    method LinkCommand(e: int, named: seq<int>) returns (ok: bool)
      requires Valid(objs) && 0 <= e < |objs| && objs[e].typ == Exit
      modifies this
      ensures Valid(objs)
      ensures ok <==> old(objs)[e].dests == [] && exists i :: 0 <= i < |named| && Linkable(old(objs), e, named[i])
      ensures objs == if ok then SetDests(old(objs), e, Kept(old(objs), e, [], named)) else old(objs)
      ensures ok ==> exists idx :: Chosen(old(objs), e, named, objs[e].dests, idx)
    {
      hide Kept, Linkable, Chosen, Valid, Acyclic;
      if objs[e].dests != [] {
        return false;
      }
      KeptSome(objs, e, named);
      ValidAcyclic(objs);
      var dests := LinkExit(objs, e, named);
      if dests == [] {
        return false;
      }
      ghost var idx :| Chosen(objs, e, named, dests, idx);
      KeptGood(objs, e, [], named);
      GoodKeepsValid(objs, e, dests);
      objs := SetDests(objs, e, dests);
      assert objs[e].dests == dests;
      ok := true;
    }

    /** The exit part of do_open: a new exit, linked when destinations are named. */
    method OpenCommand(named: seq<int>, linking: bool) returns (e: int)
      requires Valid(objs)
      modifies this
      ensures Valid(objs) && e == |old(objs)|
      ensures
        var grown := old(objs) + [Object(Exit, [])];
        && objs == (if linking then SetDests(grown, e, Kept(grown, e, [], named)) else grown)
        && (linking ==> exists idx :: Chosen(grown, e, named, objs[e].dests, idx))
    {
      hide Kept, Linkable, Chosen, Valid, Acyclic;
      e := |objs|;
      NewExitValid(objs);
      objs := objs + [Object(Exit, [])];
      if linking {
        ValidAcyclic(objs);
        var dests := LinkExit(objs, e, named);
        ghost var idx :| Chosen(objs, e, named, dests, idx);
        KeptGood(objs, e, [], named);
        GoodKeepsValid(objs, e, dests);
        objs := SetDests(objs, e, dests);
        assert objs[e].dests == dests;
      }
    }

    method UnlinkCommand(e: int)
      requires Valid(objs) && 0 <= e < |objs| && objs[e].typ == Exit
      modifies this
      ensures Valid(objs) && objs == SetDests(old(objs), e, [])
    {
      GoodKeepsValid(objs, e, []);
      objs := SetDests(objs, e, []);
    }
  }

  lemma ValidAcyclic(w: Db)
    requires Valid(w)
    ensures Acyclic(w)
  {}

  /** Giving an exit good destinations keeps the database valid. */
  lemma GoodKeepsValid(w: Db, e: int, dests: seq<int>)
    requires Valid(w) && 0 <= e < |w| && w[e].typ == Exit && GoodDests(w, e, dests)
    ensures Valid(SetDests(w, e, dests))
  {
    hide Reaches, Acyclic;
    var w' := SetDests(w, e, dests);
    SameTypes(w, e, dests);
    forall i | 0 <= i < |dests| ensures !Reaches(w, dests[i], e) {
      if !IsExit(w, dests[i]) {
        Stuck(w, dests[i], e);
      }
    }
    LinkKeepsAcyclic(w, e, dests);
    forall x | 0 <= x < |w'| && w'[x].typ == Exit ensures Limited(w', w'[x].dests) {
      assert Limited(w, if x == e then dests else w[x].dests);
    }
  }

  /** A new exit leads nowhere, so it makes no cycle. */
  lemma NewExitValid(w: Db)
    requires Valid(w)
    ensures Valid(w + [Object(Exit, [])])
  {
    hide Reaches;
    var w' := w + [Object(Exit, [])];
    forall x, y | Linked(w', x, y) ensures Linked(w, x, y) && !Reaches(w', y, x) {
      assert Linked(w, x, y);
      if Reaches(w', y, x) {
        OldReach(w, y, x);
      }
    }
    forall e | 0 <= e < |w'| && w'[e].typ == Exit ensures Limited(w', w'[e].dests) {
      if e < |w| {
        assert Limited(w, w[e].dests);
        assert forall d :: Exclusive(TypeOf(w', d)) ==> Exclusive(TypeOf(w, d));
      }
    }
  }

  lemma OldReach(w: Db, y: int, x: int)
    requires Reaches(w + [Object(Exit, [])], y, x)
    ensures Reaches(w, y, x)
  {
    var w' := w + [Object(Exit, [])];
    var p :| WalkTo(w', p, y, x);
    forall i | 0 <= i < |p| - 1 ensures Linked(w, p[i], p[i + 1]) {
      assert Linked(w', p[i], p[i + 1]);
    }
    assert WalkTo(w, p, y, x);
  }
}
