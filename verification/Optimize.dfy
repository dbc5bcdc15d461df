/** The rewriting pass over the compiled list: nodes keep their identity, addresses name a node and
an offset, and a removed node hands its addresses to the one before it. */
module Optimize {
  import opened Machine
  import opened Layout
  import opened Discipline
  import opened Blocks
  import opened Replacement
  import opened Rules
  import opened OnePass

  datatype Node = Node(id: nat, no: nat, inst: Inst, inTry: bool)
  datatype Listing = Listing(nodes: seq<Node>, addrs: seq<Addr>)

  /** The position of a node, or the length of the list. */
  function Find(nodes: seq<Node>, id: nat): (i: nat)
    ensures i <= |nodes|
    ensures i < |nodes| ==> nodes[i].id == id
    ensures forall j :: 0 <= j < i ==> nodes[j].id != id
  {
    if nodes == [] then 0
    else if nodes[0].id == id then 0
    else 1 + Find(nodes[1..], id)
  }

  /** The instruction number an entry of the address table stands for. */
  function Target(l: Listing, k: nat): nat {
    if k < |l.addrs| then Find(l.nodes, l.addrs[k].node) + l.addrs[k].off else 0
  }

  function Fixed(l: Listing, i: Inst): Inst {
    if HasTarget(i) then SetTarget(i, Target(l, i.target)) else i
  }

  /** The flat code after fix_addresses. */
  function Flat(l: Listing): Code {
    seq(|l.nodes|, j requires 0 <= j < |l.nodes| => Fixed(l, l.nodes[j].inst))
  }

  ghost predicate Distinct(nodes: seq<Node>) {
    forall i, j :: 0 <= i < j < |nodes| ==> nodes[i].id != nodes[j].id
  }

  /** The address names an instruction of the list: a node, or the one after it. */
  ghost predicate Reaches(l: Listing, k: nat) {
    && k < |l.addrs| && l.addrs[k].off <= 1
    && Find(l.nodes, l.addrs[k].node) < |l.nodes|
    && Target(l, k) < |l.nodes|
  }

  ghost predicate WellLinked(l: Listing) {
    && Distinct(l.nodes)
    && forall j :: 0 <= j < |l.nodes| && HasTarget(l.nodes[j].inst) ==> Reaches(l, l.nodes[j].inst.target)
  }

  // ----- removing nodes -----

  function Inherit(addrs: seq<Addr>, gone: nat, heir: nat): seq<Addr> {
    seq(|addrs|, i requires 0 <= i < |addrs| => if addrs[i].node == gone then addrs[i].(node := heir) else addrs[i])
  }

  /** RemoveNextIntermediate. */
  function RemoveNext(l: Listing, p: nat): (r: Listing)
    requires p < |l.nodes|
    ensures |r.addrs| == |l.addrs|
    ensures |r.nodes| == if p + 1 < |l.nodes| then |l.nodes| - 1 else |l.nodes|
  {
    if p + 1 >= |l.nodes| then l
    else Listing(l.nodes[..p + 1] + l.nodes[p + 2..], Inherit(l.addrs, l.nodes[p + 1].id, l.nodes[p].id))
  }

  /** RemoveIntermediate: the node takes the number and the instruction of the next, which goes. */
  function RemoveHere(l: Listing, p: nat): Listing
    requires p < |l.nodes|
  {
    if p + 1 >= |l.nodes| then l
    else RemoveNext(l.(nodes := l.nodes[p := l.nodes[p].(no := l.nodes[p + 1].no, inst := l.nodes[p + 1].inst)]), p)
  }

  function RemoveAfter(l: Listing, p: nat, n: nat): (r: Listing)
    requires p + n < |l.nodes|
    ensures |r.nodes| == |l.nodes| - n && |r.addrs| == |l.addrs|
    decreases n
  {
    if n == 0 then l else RemoveAfter(RemoveNext(l, p), p, n - 1)
  }

  function SetInst(l: Listing, p: nat, i: Inst): Listing
    requires p < |l.nodes|
  {
    l.(nodes := l.nodes[p := l.nodes[p].(inst := i)])
  }

  /** A block becomes one instruction. */
  function ToOne(l: Listing, p: nat, w: nat, i: Inst): Listing
    requires 0 < w && p + w <= |l.nodes|
  {
    RemoveAfter(SetInst(l, p, i), p, w - 1)
  }

  /** Three instructions become two. */
  function ToTwo(l: Listing, p: nat, i: Inst, j: Inst): Listing
    requires p + 3 <= |l.nodes|
  {
    RemoveNext(SetInst(SetInst(l, p, i), p + 1, j), p + 1)
  }

  /** The first two of three instructions go, and the third takes their node. */
  function ToLast(l: Listing, p: nat): (r: Listing)
    requires p + 3 <= |l.nodes|
  {
    RemoveHere(RemoveHere(l, p), p)
  }

  /** What the pass does to the list for a rule at position p. */
  function Apply(l: Listing, p: nat, r: Rule): (l': Listing)
    requires r.Fuse? && 1 < r.w && 0 < |r.block| < r.w && p + r.w <= |l.nodes|
  {
    if r.block[0].If? && r.w == 3 then ToLast(l, p)
    else if |r.block| == 2 then ToTwo(l, p, r.block[0], r.block[1])
    else ToOne(l, p, r.w, r.block[0])
  }

  lemma FindIs(nodes: seq<Node>, i: nat)
    requires Distinct(nodes) && i < |nodes|
    ensures Find(nodes, nodes[i].id) == i
  {}

  /** Every address but that of the removed node itself still names the same node. */
  lemma RemovedTarget(l: Listing, p: nat, k: nat)
    requires Distinct(l.nodes) && p + 1 < |l.nodes| && Reaches(l, k) && Target(l, k) != p + 1
    ensures
      var l', t := RemoveNext(l, p), Target(l, k);
      && Reaches(l', k) && Target(l', k) == (if t <= p then t else t - 1)
      && l'.nodes[Target(l', k)] == l.nodes[t]
  {
    hide Find;
    var l' := RemoveNext(l, p);
    var q := Find(l.nodes, l.addrs[k].node);
    RemovedDistinct(l, p);
    var q' := if q <= p then q else q - 1;
    assert l'.addrs[k].node == l'.nodes[q'].id;
    FindIs(l'.nodes, q');
  }

  lemma RemovedDistinct(l: Listing, p: nat)
    requires Distinct(l.nodes) && p + 1 < |l.nodes|
    ensures Distinct(RemoveNext(l, p).nodes)
  {}

  /** The same for n removals at one place. */
  lemma {:induction false} RemovedTargets(l: Listing, p: nat, n: nat, k: nat)
    requires Distinct(l.nodes) && p + n < |l.nodes| && Reaches(l, k) && !(p < Target(l, k) <= p + n)
    ensures
      var l', t := RemoveAfter(l, p, n), Target(l, k);
      && Distinct(l'.nodes) && l'.nodes == l.nodes[..p + 1] + l.nodes[p + n + 1..]
      && Reaches(l', k) && Target(l', k) == (if t <= p then t else t - n)
  {
    RemovedNodes(l, p, n);
    TargetAfter(l, p, n, k);
  }

  lemma {:induction false} TargetAfter(l: Listing, p: nat, n: nat, k: nat)
    requires Distinct(l.nodes) && p + n < |l.nodes| && Reaches(l, k) && !(p < Target(l, k) <= p + n)
    ensures
      var l', t := RemoveAfter(l, p, n), Target(l, k);
      Reaches(l', k) && Target(l', k) == (if t <= p then t else t - n)
    decreases n
  {
    hide Reaches, Target, Distinct, RemoveNext, Find;
    if n > 0 {
      RemovedTarget(l, p, k);
      RemovedDistinct(l, p);
      TargetAfter(RemoveNext(l, p), p, n - 1, k);
    }
  }

  lemma {:induction false} RemovedNodes(l: Listing, p: nat, n: nat)
    requires Distinct(l.nodes) && p + n < |l.nodes|
    ensures
      var l' := RemoveAfter(l, p, n);
      Distinct(l'.nodes) && l'.nodes == l.nodes[..p + 1] + l.nodes[p + n + 1..]
    decreases n
  {
    if n > 0 {
      RemovedDistinct(l, p);
      RemovedNodes(RemoveNext(l, p), p, n - 1);
    }
  }

  // ----- one rule applied -----

  /** The rules come in three shapes. */
  ghost predicate Shaped(l: Listing, p: nat, r: Rule) {
    && r.Fuse? && 1 < r.w && 0 < |r.block| < r.w && p + r.w <= |l.nodes|
    && (r.block[0].If? && r.w == 3 ==> r.block == [l.nodes[p + 2].inst])
    && (|r.block| != 1 ==> r.w == 3)
  }

  function Fused(l: Listing, p: nat, r: Rule): seq<Node>
    requires r.Fuse? && 1 < r.w && 0 < |r.block| < r.w && p + r.w <= |l.nodes|
  {
    if r.block[0].If? && r.w == 3 then [l.nodes[p].(no := l.nodes[p + 2].no, inst := r.block[0])]
    else if |r.block| == 2 then [l.nodes[p].(inst := r.block[0]), l.nodes[p + 1].(inst := r.block[1])]
    else [l.nodes[p].(inst := r.block[0])]
  }

  function WindowOf(p: nat, r: Rule): Window
    requires r.Fuse?
  {
    Window(p, r.w, |r.block|)
  }

  lemma SameFind(a: seq<Node>, b: seq<Node>, id: nat)
    requires |a| == |b| && forall i :: 0 <= i < |a| ==> a[i].id == b[i].id
    ensures Find(a, id) == Find(b, id)
  {
    var i, j := Find(a, id), Find(b, id);
    assert i < |a| ==> b[i].id == id;
    assert j < |b| ==> a[j].id == id;
  }

  /** Rewriting a node in place leaves every address as it was. */
  lemma Repainted(l: Listing, nodes: seq<Node>, k: nat)
    requires |nodes| == |l.nodes| && forall i :: 0 <= i < |nodes| ==> nodes[i].id == l.nodes[i].id
    ensures
      var l' := l.(nodes := nodes);
      && Target(l', k) == Target(l, k) && (Reaches(l, k) ==> Reaches(l', k))
      && (Distinct(l.nodes) ==> Distinct(nodes))
  {
    hide Find;
    if k < |l.addrs| {
      SameFind(l.nodes, nodes, l.addrs[k].node);
    }
  }

  lemma OneNodes(l: Listing, p: nat, w: nat, i: Inst)
    requires Distinct(l.nodes) && 0 < w && p + w <= |l.nodes|
    ensures
      var l' := ToOne(l, p, w, i);
      l'.nodes == l.nodes[..p] + [l.nodes[p].(inst := i)] + l.nodes[p + w..] && Distinct(l'.nodes)
  {
    var s := SetInst(l, p, i);
    Repainted(l, s.nodes, 0);
    RemovedNodes(s, p, w - 1);
    assert s.nodes[..p + 1] == l.nodes[..p] + [l.nodes[p].(inst := i)];
    assert s.nodes[p + w..] == l.nodes[p + w..];
  }

  lemma TwoNodes(l: Listing, p: nat, i: Inst, j: Inst)
    requires Distinct(l.nodes) && p + 3 <= |l.nodes|
    ensures
      var l' := ToTwo(l, p, i, j);
      && l'.nodes == l.nodes[..p] + [l.nodes[p].(inst := i), l.nodes[p + 1].(inst := j)] + l.nodes[p + 3..]
      && Distinct(l'.nodes)
  {
    var s := SetInst(SetInst(l, p, i), p + 1, j);
    Repainted(l, s.nodes, 0);
    RemovedDistinct(s, p + 1);
    assert s.nodes[..p + 2] == l.nodes[..p] + [l.nodes[p].(inst := i), l.nodes[p + 1].(inst := j)];
  }

  /** RemoveIntermediate is RemoveNextIntermediate after rewriting the node. */
  lemma HereIsNext(l: Listing, p: nat) returns (s: Listing)
    requires Distinct(l.nodes) && p + 1 < |l.nodes|
    ensures s.nodes == l.nodes[p := l.nodes[p].(no := l.nodes[p + 1].no, inst := l.nodes[p + 1].inst)]
    ensures s.addrs == l.addrs && Distinct(s.nodes) && RemoveHere(l, p) == RemoveNext(s, p)
    ensures
      var n := l.nodes[p].(no := l.nodes[p + 1].no, inst := l.nodes[p + 1].inst);
      RemoveHere(l, p).nodes == l.nodes[..p] + [n] + l.nodes[p + 2..] && Distinct(RemoveHere(l, p).nodes)
  {
    s := l.(nodes := l.nodes[p := l.nodes[p].(no := l.nodes[p + 1].no, inst := l.nodes[p + 1].inst)]);
    Repainted(l, s.nodes, 0);
    RemovedDistinct(s, p);
    assert s.nodes[..p + 1] == l.nodes[..p] + [s.nodes[p]];
  }

  lemma LastNodes(l: Listing, p: nat)
    requires Distinct(l.nodes) && p + 3 <= |l.nodes|
    ensures
      var l' := ToLast(l, p);
      && l'.nodes == l.nodes[..p] + [l.nodes[p].(no := l.nodes[p + 2].no, inst := l.nodes[p + 2].inst)] + l.nodes[p + 3..]
      && Distinct(l'.nodes)
  {
    hide RemoveHere, RemoveNext, Distinct;
    var s := HereIsNext(l, p);
    var m := RemoveHere(l, p);
    assert m.nodes[p + 1] == l.nodes[p + 2] && m.nodes[p + 2..] == l.nodes[p + 3..] && m.nodes[..p] == l.nodes[..p];
    var s' := HereIsNext(m, p);
  }

  lemma AppliedNodes(l: Listing, p: nat, r: Rule)
    requires Distinct(l.nodes) && Shaped(l, p, r)
    ensures Apply(l, p, r).nodes == l.nodes[..p] + Fused(l, p, r) + l.nodes[p + r.w..]
    ensures Distinct(Apply(l, p, r).nodes)
  {
    hide ToOne, ToTwo, ToLast, Distinct;
    if r.block[0].If? && r.w == 3 {
      LastNodes(l, p);
    } else if |r.block| == 2 {
      TwoNodes(l, p, r.block[0], r.block[1]);
    } else {
      OneNodes(l, p, r.w, r.block[0]);
    }
  }

  /** The address still names the node it named, which has moved with the code. */
  ghost predicate Carried(l: Listing, l': Listing, w: Window, k: nat)
    requires Reaches(l, k)
  {
    && Reaches(l', k) && Target(l', k) == Shift(w, Target(l, k))
    && l'.nodes[Target(l', k)].id == l.nodes[Target(l, k)].id
  }

  lemma OneTarget(l: Listing, p: nat, w: nat, i: Inst, k: nat)
    requires Distinct(l.nodes) && 0 < w && p + w <= |l.nodes|
    requires Reaches(l, k) && !Interior(Window(p, w, 1), Target(l, k))
    ensures Carried(l, ToOne(l, p, w, i), Window(p, w, 1), k)
  {
    hide Reaches, Target, RemoveAfter, Distinct;
    TargetBound(l, k);
    var s := SetInst(l, p, i);
    Repainted(l, s.nodes, k);
    RemovedTargets(s, p, w - 1, k);
    OneNodes(l, p, w, i);
  }

  lemma TwoTarget(l: Listing, p: nat, i: Inst, j: Inst, k: nat)
    requires Distinct(l.nodes) && p + 3 <= |l.nodes|
    requires Reaches(l, k) && !Interior(Window(p, 3, 2), Target(l, k))
    ensures Carried(l, ToTwo(l, p, i, j), Window(p, 3, 2), k)
  {
    hide Reaches, Target, RemoveNext, Distinct;
    TargetBound(l, k);
    var s := SetInst(SetInst(l, p, i), p + 1, j);
    Repainted(l, s.nodes, k);
    RemovedTarget(s, p + 1, k);
    TwoNodes(l, p, i, j);
  }

  lemma HereTarget(l: Listing, p: nat, k: nat)
    requires Distinct(l.nodes) && p + 1 < |l.nodes| && Reaches(l, k) && Target(l, k) != p + 1
    ensures Reaches(RemoveHere(l, p), k)
    ensures Target(RemoveHere(l, p), k) == if Target(l, k) <= p then Target(l, k) else Target(l, k) - 1
  {
    hide Reaches, Target, RemoveNext, Distinct, RemoveHere;
    var s := HereIsNext(l, p);
    Repainted(l, s.nodes, k);
    RemovedTarget(s, p, k);
  }

  lemma LastTarget(l: Listing, p: nat, k: nat)
    requires Distinct(l.nodes) && p + 3 <= |l.nodes|
    requires Reaches(l, k) && !Interior(Window(p, 3, 1), Target(l, k))
    ensures Carried(l, ToLast(l, p), Window(p, 3, 1), k)
  {
    hide Reaches, Target, RemoveHere, Distinct;
    TargetBound(l, k);
    HereTarget(l, p, k);
    var s := HereIsNext(l, p);
    HereTarget(RemoveHere(l, p), p, k);
    LastNodes(l, p);
  }

  /** Every address outside the window is moved with the code. */
  lemma AppliedTarget(l: Listing, p: nat, r: Rule, k: nat)
    requires Distinct(l.nodes) && Shaped(l, p, r) && Reaches(l, k) && !Interior(WindowOf(p, r), Target(l, k))
    ensures Carried(l, Apply(l, p, r), WindowOf(p, r), k)
  {
    hide ToOne, ToTwo, ToLast, Distinct, Reaches, Target, Carried;
    if r.block[0].If? && r.w == 3 {
      LastTarget(l, p, k);
    } else if |r.block| == 2 {
      TwoTarget(l, p, r.block[0], r.block[1], k);
    } else {
      OneTarget(l, p, r.w, r.block[0], k);
    }
  }

  lemma TargetBound(l: Listing, k: nat)
    requires Reaches(l, k)
    ensures Target(l, k) < |l.nodes|
  {}

  // ----- one rule is one replacement -----

  /** The instructions from the cursor on, with their addresses not yet resolved. */
  function From(l: Listing, p: nat): Code
    requires p <= |l.nodes|
  {
    seq(|l.nodes| - p, j requires 0 <= j < |l.nodes| - p => l.nodes[p + j].inst)
  }

  function FixedAll(l: Listing, c: Code): Code {
    seq(|c|, j requires 0 <= j < |c| => Fixed(l, c[j]))
  }

  lemma PickShaped(l: Listing, p: nat, free: nat)
    requires p < |l.nodes| && free < |l.nodes| - p
    ensures
      var r := Pick(From(l, p), free);
      && (r.Fuse? ==> Shaped(l, p, r))
      && (r.Fuse? && r.block[0].If? ==> r.w == 3)
      && (r.Fuse? && |r.block| == 2 ==> !r.block[1].If?)
      && (r.Fuse? ==> forall j :: 0 <= j < |r.block| ==> Local(r.block[j]))
  {}

  /** The rules do not look at addresses. */
  lemma PickSame(a: Code, b: Code, free: nat, l: Listing)
    requires 0 < |a| == |b| && free < |a|
    requires b[0] == Fixed(l, a[0])
    requires forall j :: 1 <= j <= 3 && j < |a| ==> b[j] == Fixed(l, a[j])
    ensures
      var r := Pick(a, free);
      Pick(b, free) == if r.Fuse? then Fuse(r.w, FixedAll(l, r.block)) else Keep
  {
    hide Target, Arith;
    var r, s := Pick(a, free), Pick(b, free);
    if r.Fuse? {
      assert s.Fuse? && s.w == r.w && |s.block| == |r.block|;
      assert s.block == FixedAll(l, r.block);
    }
  }

  lemma PickFixed(l: Listing, p: nat, free: nat)
    requires p < |l.nodes| && free < |l.nodes| - p
    ensures
      var r := Pick(From(l, p), free);
      Pick(Flat(l)[p..], free) == if r.Fuse? then Fuse(r.w, FixedAll(l, r.block)) else Keep
  {
    hide Target, Pick, Fixed, FixedAll;
    PickSame(From(l, p), Flat(l)[p..], free, l);
  }

  /** No live address names an instruction strictly inside the window. */
  ghost predicate Clear(l: Listing, w: Window) {
    forall j :: 0 <= j < |l.nodes| && HasTarget(l.nodes[j].inst) ==> !Interior(w, Target(l, l.nodes[j].inst.target))
  }

  lemma FixedMoved(l: Listing, l': Listing, w: Window, i: Inst)
    requires HasTarget(i) ==> Target(l', i.target) == Shift(w, Target(l, i.target))
    ensures Fixed(l', i) == Move(w, Fixed(l, i))
  {}

  /** Every instruction of the new list was in the old one, outside the window or as its last
      instruction, or has no address. */
  /** Where an instruction of the shortened code comes from. */
  lemma ReplaceAt(c: Code, k: Window, b: Code, j: nat)
    requires k.p + k.w <= |c| && j < |c| - k.w + |b|
    ensures |Replace(c, k, b)| == |c| - k.w + |b|
    ensures j < k.p ==> Replace(c, k, b)[j] == Move(k, c[j])
    ensures k.p <= j < k.p + |b| ==> Replace(c, k, b)[j] == Move(k, b[j - k.p])
    ensures k.p + |b| <= j ==> Replace(c, k, b)[j] == Move(k, c[j - |b| + k.w])
  {
    hide Move;
  }

  lemma AppliedInst(l: Listing, p: nat, free: nat, j: nat)
    requires Distinct(l.nodes) && p < |l.nodes| && free < |l.nodes| - p && Pick(From(l, p), free).Fuse?
    requires j < |Apply(l, p, Pick(From(l, p), free)).nodes|
    ensures
      var r := Pick(From(l, p), free);
      var i := Apply(l, p, r).nodes[j].inst;
      var c := Flat(l);
      && (HasTarget(i) ==> exists q :: 0 <= q < |l.nodes| && l.nodes[q].inst == i)
      && (Replace(c, WindowOf(p, r), FixedAll(l, r.block))[j] == Move(WindowOf(p, r), Fixed(l, i)))
      && |Apply(l, p, r).nodes| == |Replace(c, WindowOf(p, r), FixedAll(l, r.block))|
  {
    hide Pick, Apply, Target, Fixed, Find, Shift, Move;
    var r := Pick(From(l, p), free);
    PickShaped(l, p, free);
    AppliedNodes(l, p, r);
    var i := Apply(l, p, r).nodes[j].inst;
    ReplaceAt(Flat(l), WindowOf(p, r), FixedAll(l, r.block), j);
    hide Replace;
    if j < p {
      assert l.nodes[j].inst == i;
    } else if j >= p + |r.block| {
      var q := j - |r.block| + r.w;
      assert l.nodes[q].inst == i && Flat(l)[q] == Fixed(l, i);
    } else {
      assert i == r.block[j - p];
      if i.If? {
        assert l.nodes[p + 2].inst == i;
      }
    }
  }

  /** The live addresses of the new list were live in the old one, and are carried over. */
  lemma AppliedLive(l: Listing, p: nat, free: nat, j: nat)
    requires WellLinked(l) && p < |l.nodes| && free < |l.nodes| - p && Pick(From(l, p), free).Fuse?
    requires Clear(l, WindowOf(p, Pick(From(l, p), free)))
    requires j < |Apply(l, p, Pick(From(l, p), free)).nodes| && HasTarget(Apply(l, p, Pick(From(l, p), free)).nodes[j].inst)
    ensures
      var r := Pick(From(l, p), free);
      var k := Apply(l, p, r).nodes[j].inst.target;
      Reaches(l, k) && Carried(l, Apply(l, p, r), WindowOf(p, r), k)
  {
    hide Pick, Apply, Target, Reaches, Carried, Distinct, Find, Interior, Replace;
    var r := Pick(From(l, p), free);
    PickShaped(l, p, free);
    AppliedInst(l, p, free, j);
    var k := Apply(l, p, r).nodes[j].inst.target;
    AppliedTarget(l, p, r, k);
  }

  /** Applying a rule to the list replaces a window of the flat code by a block with the same effect. */
  lemma AppliedReplaces(l: Listing, p: nat, free: nat)
    requires WellLinked(l) && p < |l.nodes| && free < |l.nodes| - p && Pick(From(l, p), free).Fuse?
    requires Clear(l, WindowOf(p, Pick(From(l, p), free)))
    ensures
      var r := Pick(From(l, p), free);
      var l' := Apply(l, p, r);
      && WellLinked(l')
      && Replaces(Flat(l), Flat(l'), WindowOf(p, r), FixedAll(l, r.block))
  {
    hide Pick, Apply, Target, Reaches, Find, Interior, Replace, SameEffect, Shift, Fixed;
    var r := Pick(From(l, p), free);
    var l', w, b := Apply(l, p, r), WindowOf(p, r), FixedAll(l, r.block);
    var c, c' := Flat(l), Flat(l');
    PickShaped(l, p, free);
    AppliedNodes(l, p, r);
    forall j | 0 <= j < |l'.nodes| && HasTarget(l'.nodes[j].inst) ensures Reaches(l', l'.nodes[j].inst.target) {
      AppliedLive(l, p, free, j);
    }
    PickFixed(l, p, free);
    PickSound(c[p..], free);
    assert c[p..][..r.w] == c[p..p + r.w];
    AppliedUnaimed(l, w);
    assert |c'| == |Replace(c, w, b)| && forall j :: 0 <= j < |c'| ==> c'[j] == Replace(c, w, b)[j] by {
      AppliedSameLength(l, p, free);
      forall j | 0 <= j < |c'| ensures c'[j] == Replace(c, w, b)[j] {
        AppliedInst(l, p, free, j);
        if HasTarget(l'.nodes[j].inst) {
          AppliedLive(l, p, free, j);
        }
        FixedMoved(l, l', w, l'.nodes[j].inst);
      }
    }
  }

  lemma AppliedSameLength(l: Listing, p: nat, free: nat)
    requires Distinct(l.nodes) && p < |l.nodes| && free < |l.nodes| - p && Pick(From(l, p), free).Fuse?
    ensures
      var r := Pick(From(l, p), free);
      |Apply(l, p, r).nodes| == |Replace(Flat(l), WindowOf(p, r), FixedAll(l, r.block))|
  {
    hide Pick, Apply, Distinct;
    PickShaped(l, p, free);
    AppliedNodes(l, p, Pick(From(l, p), free));
  }

  lemma AppliedUnaimed(l: Listing, w: Window)
    requires Clear(l, w)
    ensures Unaimed(Flat(l), w)
  {
    hide Target, Interior;
  }

  // ----- the pass -----

  /** ContiguousIntermediates: n instructions from q on exist, and none of them is flagged. */
  predicate Unflagged(l: Listing, flags: seq<bool>, q: nat, n: nat) {
    && q + n <= |l.nodes|
    && forall i :: q <= i < q + n ==> !(l.nodes[i].no < |flags| && flags[l.nodes[i].no])
  }

  /** How many instructions after p the rules may take, of the three they ever ask for. */
  function Free(l: Listing, flags: seq<bool>, p: nat): (n: nat)
    requires p < |l.nodes|
    ensures n <= 3 && n < |l.nodes| - p && Unflagged(l, flags, p + 1, n)
    ensures n < 3 ==> !Unflagged(l, flags, p + 1, 3)
    ensures n < 2 ==> !Unflagged(l, flags, p + 1, 2)
    ensures n < 1 ==> !Unflagged(l, flags, p + 1, 1)
  {
    if Unflagged(l, flags, p + 1, 3) then 3
    else if Unflagged(l, flags, p + 1, 2) then 2
    else if Unflagged(l, flags, p + 1, 1) then 1
    else 0
  }

  function RuleAt(l: Listing, flags: seq<bool>, p: nat): (r: Rule)
    requires p < |l.nodes|
    ensures r.Fuse? ==> 1 < r.w && 0 < |r.block| < r.w && p + r.w <= |l.nodes|
  {
    Pick(From(l, p), Free(l, flags, p))
  }

  lemma AppliedShorter(l: Listing, p: nat, r: Rule)
    requires r.Fuse? && 1 < r.w && 0 < |r.block| < r.w && p + r.w <= |l.nodes|
    ensures |Apply(l, p, r).nodes| < |l.nodes|
  {}

  /** The cursor stays where a rule applied and moves on where none does. */
  function Scan(l: Listing, flags: seq<bool>, cur: nat): (l': Listing)
    ensures |l'.nodes| <= |l.nodes|
    decreases |l.nodes| - cur
  {
    if cur >= |l.nodes| then l
    else
      var r := RuleAt(l, flags, cur);
      if r.Keep? then Scan(l, flags, cur + 1)
      else
        AppliedShorter(l, cur, r);
        Scan(Apply(l, cur, r), flags, cur)
  }

  /** A scan that removes nothing has found nothing: no rule applies anywhere. */
  lemma {:induction false} NothingLeft(l: Listing, flags: seq<bool>, cur: nat)
    requires |Scan(l, flags, cur).nodes| == |l.nodes|
    ensures Scan(l, flags, cur) == l && forall j :: cur <= j < |l.nodes| ==> RuleAt(l, flags, j).Keep?
    decreases |l.nodes| - cur
  {
    hide RuleAt, Apply;
    if cur < |l.nodes| {
      var r := RuleAt(l, flags, cur);
      if r.Fuse? {
        AppliedShorter(l, cur, r);
      } else {
        NothingLeft(l, flags, cur + 1);
      }
    }
  }

  function Renumber(l: Listing): Listing {
    l.(nodes := seq(|l.nodes|, j requires 0 <= j < |l.nodes| => l.nodes[j].(no := j)))
  }

  /** The instructions that a jump leads to, by number. */
  function Marks(l: Listing): seq<bool> {
    seq(|l.nodes|, t => exists j :: 0 <= j < |l.nodes| && HasTarget(l.nodes[j].inst) && Target(l, l.nodes[j].inst.target) == t)
  }

  function Rewrite(l: Listing): (l': Listing)
    ensures |l'.nodes| <= |l.nodes|
  {
    Scan(Renumber(l), Marks(Renumber(l)), 0)
  }

  // ----- the pass is sound -----

  /** Behind the cursor the flags still tell which instructions are the target of a jump. */
  ghost predicate Flagged(l: Listing, flags: seq<bool>, cur: nat) {
    forall j :: 0 <= j < |l.nodes| && HasTarget(l.nodes[j].inst) ==> FlaggedFor(l, flags, cur, l.nodes[j].inst.target)
  }

  ghost predicate FlaggedFor(l: Listing, flags: seq<bool>, cur: nat, k: nat) {
    var t := Target(l, k);
    cur < t < |l.nodes| ==> l.nodes[t].no < |flags| && flags[l.nodes[t].no]
  }

  ghost predicate Increasing(nodes: seq<Node>) {
    forall i, j :: 0 <= i < j < |nodes| ==> nodes[i].no < nodes[j].no
  }

  /** An instruction inside a TRY was compiled with the flag that says so. */
  ghost predicate Noted(nodes: seq<Node>, dep: seq<nat>) {
    |dep| == |nodes| && forall j :: 0 <= j < |nodes| && dep[j] > 0 ==> nodes[j].inTry
  }

  ghost predicate Fine(l: Listing, dep: seq<nat>) {
    WellLinked(l) && Increasing(l.nodes) && Typed(Flat(l), dep) && Noted(l.nodes, dep)
  }

  lemma FlaggedClear(l: Listing, flags: seq<bool>, p: nat, n: nat, w: Window)
    requires Flagged(l, flags, p) && Unflagged(l, flags, p + 1, n) && w.p == p && w.w <= n + 1
    ensures Clear(l, w)
  {
    hide Target;
    forall j | 0 <= j < |l.nodes| && HasTarget(l.nodes[j].inst) ensures !Interior(w, Target(l, l.nodes[j].inst.target)) {
      assert FlaggedFor(l, flags, p, l.nodes[j].inst.target);
    }
  }

  lemma AppliedFlagged(l: Listing, flags: seq<bool>, p: nat)
    requires WellLinked(l) && Flagged(l, flags, p) && p < |l.nodes| && RuleAt(l, flags, p).Fuse?
    ensures Clear(l, WindowOf(p, RuleAt(l, flags, p)))
    ensures Flagged(Apply(l, p, RuleAt(l, flags, p)), flags, p)
  {
    hide Pick, Apply, Target, Reaches, Distinct, Fused;
    var n := Free(l, flags, p);
    var r := Pick(From(l, p), n);
    var l', w := Apply(l, p, r), WindowOf(p, r);
    FlaggedClear(l, flags, p, n, w);
    PickShaped(l, p, n);
    AppliedNodes(l, p, r);
    FusedLength(l, p, r);
    forall j | 0 <= j < |l'.nodes| && HasTarget(l'.nodes[j].inst) ensures FlaggedFor(l', flags, p, l'.nodes[j].inst.target) {
      var k := l'.nodes[j].inst.target;
      AppliedLive(l, p, n, j);
      AppliedOld(l, p, n, j);
      var t, t' := Target(l, k), Target(l', k);
      TargetBound(l, k);
      assert FlaggedFor(l, flags, p, k) && !Interior(w, t);
      if p < t' < |l'.nodes| {
        assert t >= p + r.w && l'.nodes[t'] == l.nodes[t];
      }
    }
  }

  lemma FusedLength(l: Listing, p: nat, r: Rule)
    requires Shaped(l, p, r)
    ensures |Fused(l, p, r)| == |r.block|
  {}

  /** A live address of the new list was live in the old one. */
  lemma AppliedOld(l: Listing, p: nat, free: nat, j: nat)
    requires Distinct(l.nodes) && p < |l.nodes| && free < |l.nodes| - p && Pick(From(l, p), free).Fuse?
    requires j < |Apply(l, p, Pick(From(l, p), free)).nodes| && HasTarget(Apply(l, p, Pick(From(l, p), free)).nodes[j].inst)
    ensures
      var i := Apply(l, p, Pick(From(l, p), free)).nodes[j].inst;
      exists q :: 0 <= q < |l.nodes| && l.nodes[q].inst == i
  {
    hide Pick, Apply, Distinct, Replace;
    AppliedInst(l, p, free, j);
  }

  lemma AppliedIncreasing(l: Listing, p: nat, r: Rule)
    requires Distinct(l.nodes) && Shaped(l, p, r) && Increasing(l.nodes)
    ensures Increasing(Apply(l, p, r).nodes)
  {
    hide Apply, Distinct;
    AppliedNodes(l, p, r);
  }

  lemma AppliedNoted(l: Listing, p: nat, r: Rule, dep: seq<nat>)
    requires Distinct(l.nodes) && Shaped(l, p, r) && Noted(l.nodes, dep)
    requires forall i :: p <= i < p + r.w ==> dep[i] == dep[p]
    ensures Noted(Apply(l, p, r).nodes, NewDep(dep, WindowOf(p, r)))
  {
    hide Apply, Distinct;
    AppliedNodes(l, p, r);
    var nodes, dep' := Apply(l, p, r).nodes, NewDep(dep, WindowOf(p, r));
    assert dep[p + 1] == dep[p];
    forall j | 0 <= j < |nodes| && dep'[j] > 0 ensures nodes[j].inTry {
      if j >= p + |r.block| {
        assert nodes[j] == l.nodes[j - |r.block| + r.w];
      }
    }
  }

  /** A procedure header: a node of the list that no rule touches. */
  ghost predicate Header(l: Listing, id: nat) {
    Find(l.nodes, id) < |l.nodes| && l.nodes[Find(l.nodes, id)].inst.Function?
  }

  /** The interpreter about to run the procedure whose header is the given node. */
  function StartAt(l: Listing, id: nat, arg: seq<Value>): Config {
    Live(State(Find(l.nodes, id), arg, [0], [], [], ""))
  }

  lemma AppliedHeader(l: Listing, p: nat, free: nat, id: nat, arg: seq<Value>)
    requires Distinct(l.nodes) && p < |l.nodes| && free < |l.nodes| - p && Pick(From(l, p), free).Fuse?
    requires Header(l, id)
    ensures
      var r := Pick(From(l, p), free);
      var l', w := Apply(l, p, r), WindowOf(p, r);
      && Header(l', id)
      && OutsideConfig(w, StartAt(l, id, arg)) && StartAt(l', id, arg) == ShiftConfig(w, StartAt(l, id, arg))
  {
    hide Apply, Find, Pick;
    var r := Pick(From(l, p), free);
    PickShaped(l, p, free);
    PickPlain(l, p, free);
    AppliedNodes(l, p, r);
    var q := Find(l.nodes, id);
    var l' := Apply(l, p, r);
    var q' := Shift(WindowOf(p, r), q);
    assert l'.nodes[q'] == l.nodes[q];
    FindIs(l'.nodes, q');
  }

  lemma PickPlain(l: Listing, p: nat, free: nat)
    requires p < |l.nodes| && free < |l.nodes| - p && Pick(From(l, p), free).Fuse?
    ensures forall j :: p <= j < p + Pick(From(l, p), free).w ==> !l.nodes[j].inst.Function?
  {
    forall j | p <= j < p + Pick(From(l, p), free).w ensures !l.nodes[j].inst.Function? {
      assert From(l, p)[j - p] == l.nodes[j].inst;
    }
  }

  /** One rule: the list stays fine, and the program it holds is refined. */
  lemma ApplySound(l: Listing, flags: seq<bool>, p: nat, id: nat, arg: seq<Value>, dep: seq<nat>) returns (dep': seq<nat>)
    requires Fine(l, dep) && Flagged(l, flags, p) && p < |l.nodes| && RuleAt(l, flags, p).Fuse? && Header(l, id)
    ensures
      var l' := Apply(l, p, RuleAt(l, flags, p));
      && Fine(l', dep') && Flagged(l', flags, p) && Header(l', id)
      && Refines(Flat(l), StartAt(l, id, arg), Flat(l'), StartAt(l', id, arg))
  {
    hide Pick, Apply, Flagged, WellLinked, Increasing, Typed, Noted, Header, Clear, Replaces, Refines, Flat,
        OutsideConfig, StartAt, ShiftConfig, NewDep;
    var n := Free(l, flags, p);
    var r := Pick(From(l, p), n);
    var l', w := Apply(l, p, r), WindowOf(p, r);
    assert Distinct(l.nodes) by { LinkedDistinct(l); }
    hide Distinct;
    PickShaped(l, p, n);
    AppliedFlagged(l, flags, p);
    AppliedReplaces(l, p, n);
    AppliedIncreasing(l, p, r);
    AppliedHeader(l, p, n, id, arg);
    var b := FixedAll(l, r.block);
    ReplaceRefines(Flat(l), Flat(l'), w, b, StartAt(l, id, arg));
    ReplaceTyped(Flat(l), Flat(l'), dep, w, b);
    WindowFlat(l, p, r, b, l', dep);
    AppliedNoted(l, p, r, dep);
    dep' := NewDep(dep, w);
  }

  lemma LinkedDistinct(l: Listing)
    requires WellLinked(l)
    ensures Distinct(l.nodes)
  {}

  lemma WindowFlat(l: Listing, p: nat, r: Rule, b: Code, l': Listing, dep: seq<nat>)
    requires r.Fuse? && p + r.w <= |l.nodes| && Replaces(Flat(l), Flat(l'), WindowOf(p, r), b) && Typed(Flat(l), dep)
    ensures p + r.w <= |dep| && forall i :: p <= i < p + r.w ==> dep[i] == dep[p]
  {
    hide Replace, TypedAt, Fixed;
    forall i | p <= i < p + r.w ensures dep[i] == dep[p] {
      WindowDep(Flat(l), dep, WindowOf(p, r), i - p);
    }
  }

  lemma RefinesSelf(c: Code, x: Config)
    ensures Refines(c, x, c, x)
  {
    hide GoodRun, Yields;
  }

  lemma FlaggedOn(l: Listing, flags: seq<bool>, p: nat)
    requires Flagged(l, flags, p)
    ensures Flagged(l, flags, p + 1)
  {
    hide Target;
    forall j | 0 <= j < |l.nodes| && HasTarget(l.nodes[j].inst) ensures FlaggedFor(l, flags, p + 1, l.nodes[j].inst.target) {
      assert FlaggedFor(l, flags, p, l.nodes[j].inst.target);
    }
  }

  lemma {:induction false} ScanSound(l: Listing, flags: seq<bool>, cur: nat, id: nat, arg: seq<Value>, dep: seq<nat>)
    returns (dep': seq<nat>)
    requires Fine(l, dep) && Flagged(l, flags, cur) && Header(l, id)
    ensures
      var l' := Scan(l, flags, cur);
      && Fine(l', dep') && Header(l', id)
      && Refines(Flat(l), StartAt(l, id, arg), Flat(l'), StartAt(l', id, arg))
    decreases |l.nodes| - cur
  {
    hide RuleAt, Apply, Fine, Flagged, Header, Refines, StartAt, Flat;
    if cur >= |l.nodes| {
      dep' := dep;
      RefinesSelf(Flat(l), StartAt(l, id, arg));
    } else if RuleAt(l, flags, cur).Keep? {
      FlaggedOn(l, flags, cur);
      dep' := ScanSound(l, flags, cur + 1, id, arg, dep);
    } else {
      var l1 := Apply(l, cur, RuleAt(l, flags, cur));
      AppliedShorter(l, cur, RuleAt(l, flags, cur));
      var dep1 := ApplySound(l, flags, cur, id, arg, dep);
      dep' := ScanSound(l1, flags, cur, id, arg, dep1);
      var l' := Scan(l1, flags, cur);
      RefinesTrans(Flat(l), StartAt(l, id, arg), Flat(l1), StartAt(l1, id, arg), Flat(l'), StartAt(l', id, arg));
    }
  }

  // ----- the start of a pass -----

  lemma RenumberFind(l: Listing, id: nat)
    ensures Find(Renumber(l).nodes, id) == Find(l.nodes, id)
  {
    SameFind(l.nodes, Renumber(l).nodes, id);
  }

  lemma RenumberSame(l: Listing, k: nat)
    ensures Target(Renumber(l), k) == Target(l, k) && (Reaches(l, k) ==> Reaches(Renumber(l), k))
  {
    hide Renumber;
    if k < |l.addrs| {
      RenumberFind(l, l.addrs[k].node);
    }
    assert Renumber(l).addrs == l.addrs && |Renumber(l).nodes| == |l.nodes| by { RenumberFields(l); }
  }

  lemma RenumberFields(l: Listing)
    ensures Renumber(l).addrs == l.addrs && |Renumber(l).nodes| == |l.nodes|
    ensures forall j :: 0 <= j < |l.nodes| ==> Renumber(l).nodes[j] == l.nodes[j].(no := j)
  {}

  /** Numbering the list changes nothing but the numbers. */
  lemma RenumberFine(l: Listing, dep: seq<nat>)
    requires WellLinked(l) && Typed(Flat(l), dep) && Noted(l.nodes, dep)
    ensures Flat(Renumber(l)) == Flat(l) && Fine(Renumber(l), dep)
  {
    hide Target, Typed, Find, Reaches;
    var l' := Renumber(l);
    forall j | 0 <= j < |l.nodes| ensures Fixed(l', l'.nodes[j].inst) == Fixed(l, l.nodes[j].inst) {
      if HasTarget(l.nodes[j].inst) {
        RenumberSame(l, l.nodes[j].inst.target);
      }
    }
    forall j | 0 <= j < |l'.nodes| && HasTarget(l'.nodes[j].inst) ensures Reaches(l', l'.nodes[j].inst.target) {
      RenumberSame(l, l.nodes[j].inst.target);
    }
  }

  lemma MarksFlag(l: Listing)
    ensures Flagged(Renumber(l), Marks(Renumber(l)), 0)
  {
    hide Target;
    var l' := Renumber(l);
    forall j | 0 <= j < |l'.nodes| && HasTarget(l'.nodes[j].inst)
      ensures FlaggedFor(l', Marks(l'), 0, l'.nodes[j].inst.target)
    {
      var t := Target(l', l'.nodes[j].inst.target);
      if t < |l'.nodes| {
        assert l'.nodes[t].no == t;
      }
    }
  }

  lemma RenumberHeader(l: Listing, id: nat, arg: seq<Value>)
    requires Header(l, id)
    ensures Header(Renumber(l), id) && StartAt(Renumber(l), id, arg) == StartAt(l, id, arg)
  {
    RenumberFind(l, id);
  }

  /** A pass over the list refines the program, whatever rules it applies and in whatever order the
      jumps lie; the list it leaves is again ready for a pass. */
  lemma RewriteSound(l: Listing, id: nat, arg: seq<Value>, dep: seq<nat>) returns (dep': seq<nat>)
    requires WellLinked(l) && Typed(Flat(l), dep) && Noted(l.nodes, dep) && Header(l, id)
    ensures Fine(Rewrite(l), dep') && Header(Rewrite(l), id)
    ensures Refines(Flat(l), StartAt(l, id, arg), Flat(Rewrite(l)), StartAt(Rewrite(l), id, arg))
  {
    hide Scan, Marks, Renumber, WellLinked, Typed, Noted, Fine, Flagged, Header, StartAt, Flat, Refines;
    RenumberFine(l, dep);
    MarksFlag(l);
    RenumberHeader(l, id, arg);
    dep' := ScanSound(Renumber(l), Marks(Renumber(l)), 0, id, arg, dep);
  }

  // ----- addresses -----

  /** Some instruction of the list uses the address. */
  ghost predicate Used(l: Listing, k: nat) {
    exists j :: 0 <= j < |l.nodes| && HasTarget(l.nodes[j].inst) && l.nodes[j].inst.target == k
  }

  /** The address names the same node in both lists. */
  ghost predicate SameNode(l: Listing, l': Listing, k: nat) {
    && Reaches(l, k) && Reaches(l', k)
    && l'.nodes[Target(l', k)].id == l.nodes[Target(l, k)].id
  }

  lemma ApplyKeepsTargets(l: Listing, flags: seq<bool>, p: nat, k: nat)
    requires WellLinked(l) && Flagged(l, flags, p) && p < |l.nodes| && RuleAt(l, flags, p).Fuse?
    requires Used(Apply(l, p, RuleAt(l, flags, p)), k)
    ensures Used(l, k) && SameNode(l, Apply(l, p, RuleAt(l, flags, p)), k)
  {
    hide Pick, Apply, Flagged, Clear, Reaches, Target, Distinct;
    var n := Free(l, flags, p);
    var l' := Apply(l, p, RuleAt(l, flags, p));
    var j :| 0 <= j < |l'.nodes| && HasTarget(l'.nodes[j].inst) && l'.nodes[j].inst.target == k;
    AppliedFlagged(l, flags, p);
    AppliedLive(l, p, n, j);
    AppliedOld(l, p, n, j);
  }

  /** Every address a surviving instruction uses names the node it named before the pass. */
  lemma {:induction false} ScanKeepsTargets(l: Listing, flags: seq<bool>, cur: nat, k: nat)
    requires WellLinked(l) && Flagged(l, flags, cur)
    requires Used(Scan(l, flags, cur), k)
    ensures Used(l, k) && SameNode(l, Scan(l, flags, cur), k)
    decreases |l.nodes| - cur
  {
    hide RuleAt, Apply, Flagged, Distinct, Target;
    if cur < |l.nodes| {
      if RuleAt(l, flags, cur).Keep? {
        FlaggedOn(l, flags, cur);
        ScanKeepsTargets(l, flags, cur + 1, k);
      } else {
        AppliedShorter(l, cur, RuleAt(l, flags, cur));
        AppliedFlagged(l, flags, cur);
        RuleAtLinked(l, flags, cur);
        ScanKeepsTargets(Apply(l, cur, RuleAt(l, flags, cur)), flags, cur, k);
        ApplyKeepsTargets(l, flags, cur, k);
      }
    }
  }

  /** Over a whole pass. */
  lemma RewriteKeepsTargets(l: Listing, k: nat)
    requires WellLinked(l) && Used(Rewrite(l), k)
    ensures SameNode(l, Rewrite(l), k)
  {
    hide Scan, Marks, Flagged, Used, Target, Find;
    var l0 := Renumber(l);
    MarksFlag(l);
    forall j | 0 <= j < |l0.nodes| && HasTarget(l0.nodes[j].inst) ensures Reaches(l0, l0.nodes[j].inst.target) {
      RenumberSame(l, l.nodes[j].inst.target);
    }
    ScanKeepsTargets(l0, Marks(l0), 0, k);
    RenumberSame(l, k);
    RenumberUsed(l, k);
  }

  lemma RenumberUsed(l: Listing, k: nat)
    requires Used(Renumber(l), k)
    ensures Used(l, k)
  {
    var j :| 0 <= j < |l.nodes| && HasTarget(Renumber(l).nodes[j].inst) && Renumber(l).nodes[j].inst.target == k;
    assert l.nodes[j].inst == Renumber(l).nodes[j].inst;
  }

  lemma RuleAtLinked(l: Listing, flags: seq<bool>, p: nat)
    requires WellLinked(l) && Flagged(l, flags, p) && p < |l.nodes| && RuleAt(l, flags, p).Fuse?
    ensures WellLinked(Apply(l, p, RuleAt(l, flags, p)))
  {
    hide Pick, Apply, WellLinked, Flagged, Clear, Replaces;
    AppliedFlagged(l, flags, p);
    AppliedReplaces(l, p, Free(l, flags, p));
  }
}
