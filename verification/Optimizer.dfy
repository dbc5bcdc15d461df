/** The optimizer as the program that it is: an object whose list and address table its passes rewrite
in place. Each method is proved to do what the description of the pass as a function says. */
module Optimizer {
  import opened Machine
  import opened Rules
  import opened Optimize
  import opened ClearPass
  import opened FetchClear
  import opened OnePass

  lemma FreeAtLeast(l: Listing, flags: seq<bool>, p: nat, n: nat)
    requires p < |l.nodes| && 1 <= n <= 3
    ensures Unflagged(l, flags, p + 1, n) <==> n <= Free(l, flags, p)
  {
    var m := Free(l, flags, p);
    if n <= m {
      assert Unflagged(l, flags, p + 1, m);
    }
  }

  class Program {
    var nodes: seq<Node>
    var addrs: seq<Addr>
    var nowords: nat

    constructor (l: Listing)
      ensures Snapshot() == l && nowords == |l.nodes|
    {
      nodes, addrs, nowords := l.nodes, l.addrs, |l.nodes|;
    }

    function Snapshot(): Listing
      reads this
    {
      Listing(nodes, addrs)
    }

    /** RemoveNextIntermediate: the addresses of the next node pass to this one, and it goes. */
    method RemoveNextIntermediate(p: nat)
      requires p < |nodes| && nowords == |nodes|
      modifies this
      ensures Snapshot() == RemoveNext(old(Snapshot()), p) && nowords == |nodes|
    {
      if p + 1 >= |nodes| {
        return;
      }
      var gone, heir := nodes[p + 1].id, nodes[p].id;
      var i := 0;
      while i < |addrs|
        invariant i <= |addrs| == |old(addrs)| && nodes == old(nodes) && nowords == old(nowords)
        invariant forall j :: 0 <= j < i ==> addrs[j] == Inherit(old(addrs), gone, heir)[j]
        invariant forall j :: i <= j < |addrs| ==> addrs[j] == old(addrs)[j]
      {
        if addrs[i].node == gone {
          addrs := addrs[i := addrs[i].(node := heir)];
        }
        i := i + 1;
      }
      assert addrs == Inherit(old(addrs), gone, heir);
      nodes := nodes[..p + 1] + nodes[p + 2..];
      nowords := nowords - 1;
    }

    /** RemoveIntermediate: the node becomes the next one, which goes. */
    method RemoveIntermediate(p: nat)
      requires p < |nodes| && nowords == |nodes|
      modifies this
      ensures Snapshot() == RemoveHere(old(Snapshot()), p) && nowords == |nodes|
    {
      if p + 1 >= |nodes| {
        return;
      }
      nodes := nodes[p := nodes[p].(no := nodes[p + 1].no, inst := nodes[p + 1].inst)];
      RemoveNextIntermediate(p);
    }

    /** ContiguousIntermediates. */
    method ContiguousIntermediates(flags: array<bool>, q: nat, count: nat) returns (ok: bool)
      ensures ok == Unflagged(Snapshot(), flags[..], q, count)
    {
      var i := 0;
      while i < count
        invariant i <= count && (q <= |nodes| ==> Unflagged(Snapshot(), flags[..], q, i)) && (i > 0 ==> q <= |nodes|)
      {
        if q + i >= |nodes| {
          return false;
        }
        var no := nodes[q + i].no;
        if no < flags.Length && flags[no] {
          assert flags[..][no];
          return false;
        }
        i := i + 1;
      }
      ok := q <= |nodes|;
    }

    method SetNode(p: nat, i: Inst)
      requires p < |nodes|
      modifies `nodes
      ensures Snapshot() == SetInst(old(Snapshot()), p, i)
    {
      nodes := nodes[p := nodes[p].(inst := i)];
    }

    /** The window of w instructions becomes one. */
    method Shrink(p: nat, w: nat, i: Inst)
      requires 1 < w && p + w <= |nodes| && nowords == |nodes|
      modifies this
      ensures Snapshot() == ToOne(old(Snapshot()), p, w, i) && nowords == |nodes|
    {
      hide RemoveNext;
      SetNode(p, i);
      ghost var s := Snapshot();
      var n := w - 1;
      while n > 0
        invariant 0 <= n < w && p + n < |nodes| && nowords == |nodes|
        invariant RemoveAfter(Snapshot(), p, n) == RemoveAfter(s, p, w - 1)
      {
        RemoveNextIntermediate(p);
        n := n - 1;
      }
    }

    method Rewrite3(p: nat, i: Inst, j: Inst)
      requires p + 3 <= |nodes| && nowords == |nodes|
      modifies this
      ensures Snapshot() == ToTwo(old(Snapshot()), p, i, j) && nowords == |nodes|
    {
      SetNode(p, i);
      SetNode(p + 1, j);
      RemoveNextIntermediate(p + 1);
    }

    predicate IsPrim(p: nat, prim: Prim)
      reads this
    {
      p < |nodes| && nodes[p].inst == Primitive(prim)
    }

    /** The rule at the cursor, if any: whether the cursor may move on. */
    method RewriteAt(flags: array<bool>, p: nat) returns (advance: bool)
      requires p < |nodes| && nowords == |nodes|
      modifies this
      ensures
        var r := RuleAt(old(Snapshot()), old(flags[..]), p);
        && advance == r.Keep?
        && Snapshot() == (if r.Keep? then old(Snapshot()) else Apply(old(Snapshot()), p, r))
        && nowords == |nodes|
    {
      hide ToOne, ToTwo, ToLast, Unflagged, Arith;
      ghost var l, a := Snapshot(), From(Snapshot(), p);
      FreeAtLeast(l, flags[..], p, 1);
      FreeAtLeast(l, flags[..], p, 2);
      FreeAtLeast(l, flags[..], p, 3);
      var one := ContiguousIntermediates(flags, p + 1, 1);
      var two := ContiguousIntermediates(flags, p + 1, 2);
      var three := ContiguousIntermediates(flags, p + 1, 3);
      assert one ==> a[1] == nodes[p + 1].inst;
      assert two ==> a[2] == nodes[p + 2].inst;
      assert three ==> a[3] == nodes[p + 3].inst;
      advance := false;
      match nodes[p].inst {
        case PushSVar(k) =>
          if one && IsPrim(p + 1, Fetch) {
            Shrink(p, 2, SVarAt(k));
            return;
          }
          if one && IsPrim(p + 1, Store) {
            Shrink(p, 2, SVarBang(k));
            return;
          }
        case PushStr(s) =>
          if s == "" && three && IsPrim(p + 1, Strcmp) && nodes[p + 2].inst == PushInt(0) && IsPrim(p + 3, Equal) {
            Shrink(p, 4, Primitive(Not));
            return;
          }
        case PushInt(n) =>
          if two && nodes[p + 1].inst.PushInt? && nodes[p + 2].inst.Primitive? && nodes[p + 2].inst.p.Math? {
            var m, op := nodes[p + 1].inst.n, nodes[p + 2].inst.p.op;
            if Folds(op, m) {
              Shrink(p, 3, PushInt(Arith(op, n, m)));
              return;
            }
          } else if n == 0 && one && IsPrim(p + 1, Equal) {
            Shrink(p, 2, Primitive(Not));
            return;
          } else if n == 1 && one && IsPrim(p + 1, Math(Add)) {
            Shrink(p, 2, Primitive(Incr));
            return;
          } else if n == 1 && one && IsPrim(p + 1, Math(Sub)) {
            Shrink(p, 2, Primitive(Decr));
            return;
          }
        case Primitive(prim) =>
          if prim == Rot && two && IsPrim(p + 1, Rot) && IsPrim(p + 2, Swap) {
            Rewrite3(p, Primitive(Swap), Primitive(Rot));
            return;
          }
          if prim == Not && two && IsPrim(p + 1, Not) && nodes[p + 2].inst.If? {
            RemoveTwice(p);
            return;
          }
        case _ =>
      }
      advance := true;
    }

    method RemoveTwice(p: nat)
      requires p + 3 <= |nodes| && nowords == |nodes|
      modifies this
      ensures Snapshot() == ToLast(old(Snapshot()), p) && nowords == |nodes|
    {
      RemoveIntermediate(p);
      RemoveIntermediate(p);
    }

    method RenumberChain()
      modifies `nodes
      ensures Snapshot() == Renumber(old(Snapshot()))
    {
      var i := 0;
      while i < |nodes|
        invariant i <= |nodes| == |old(nodes)|
        invariant forall j :: 0 <= j < i ==> nodes[j] == old(nodes)[j].(no := j)
        invariant forall j :: i <= j < |nodes| ==> nodes[j] == old(nodes)[j]
      {
        nodes := nodes[i := nodes[i].(no := i)];
        i := i + 1;
      }
      assert nodes == Renumber(old(Snapshot())).nodes;
    }

    /** The node an address entry points to, walked to by its offset; the end of the list stops the walk. */
    method Follow(k: nat) returns (at: nat)
      requires Reaches(Snapshot(), k)
      ensures at == Target(Snapshot(), k)
    {
      at := 0;
      while nodes[at].id != addrs[k].node
        invariant at < |nodes| && forall j :: 0 <= j < at ==> nodes[j].id != addrs[k].node
        decreases |nodes| - at
      {
        at := at + 1;
      }
      assert at == Find(nodes, addrs[k].node);
      var i := addrs[k].off;
      while at + 1 < |nodes| && i > 0
        invariant 0 <= i <= addrs[k].off && at + i == Target(Snapshot(), k) && at < |nodes|
      {
        at := at + 1;
        i := i - 1;
      }
    }

    /** Flag the instructions that jumps lead to. */
    method MarkReferences() returns (flags: array<bool>)
      requires WellLinked(Snapshot())
      ensures fresh(flags) && flags[..] == Marks(Snapshot())
    {
      hide Target, Find;
      flags := new bool[|nodes|](_ => false);
      var i := 0;
      while i < |nodes|
        invariant i <= |nodes| && fresh(flags) && flags.Length == |nodes|
        invariant forall t :: 0 <= t < |nodes| ==>
          (flags[t] <==> exists j :: 0 <= j < i && HasTarget(nodes[j].inst) && Target(Snapshot(), nodes[j].inst.target) == t)
      {
        if HasTarget(nodes[i].inst) {
          var t := Follow(nodes[i].inst.target);
          flags[t] := true;
        }
        i := i + 1;
      }
      assert flags[..] == Marks(Snapshot());
    }

    /** MaybeOptimizeVarsAt: search on from the fetch at f for the store that makes clearing safe. */
    method MaybeOptimizeVarsAt(f: nat)
      requires WellLinked(Snapshot()) && f < |nodes| && nodes[f].inst.SVarAt?
      modifies `nodes
      ensures Snapshot() == MaybeClear(old(Snapshot()), f)
    {
      hide Target, Find, WellLinked;
      var first, k := nodes[f].no, nodes[f].inst.k;
      if nodes[f].inTry {
        return;
      }
      var far := 0;
      var i := f + 1;
      while i < |nodes|
        invariant f < i <= |nodes| && nodes == old(nodes)
        invariant Seek(Snapshot(), first, k, i, far) == Seek(Snapshot(), first, k, f + 1, 0)
      {
        if nodes[i].inTry {
          return;
        }
        match nodes[i].inst {
          case Primitive(p) => if p == Fetch || p == Store { return; }
          case SVarAt(j) => if j == k { return; }
          case SVarAtClear(j) => if j == k { return; }
          case SVarBang(j) =>
            if j == k {
              if nodes[i].no > far {
                SetNode(f, SVarAtClear(k));
              }
              return;
            }
          case If(t) =>
            var n := NumberOf(i);
            if n <= first { return; }
            far := if n > far then n else far;
          case Try(t) =>
            var n := NumberOf(i);
            if n <= first { return; }
            far := if n > far then n else far;
          case Jmp(t) =>
            var n := NumberOf(i);
            if n <= first { return; }
            far := if n > far then n else far;
          case Function(_, _) => return;
          case _ =>
        }
        i := i + 1;
      }
    }

    method NumberOf(i: nat) returns (n: nat)
      requires WellLinked(Snapshot()) && i < |nodes| && HasTarget(nodes[i].inst)
      ensures n == NumberAt(Snapshot(), nodes[i].inst.target)
    {
      hide Target, Find;
      var at := Follow(nodes[i].inst.target);
      TargetBound(Snapshot(), nodes[i].inst.target);
      n := nodes[at].no;
    }

    method RewriteAll(flags: array<bool>)
      requires nowords == |nodes|
      modifies this
      ensures Snapshot() == Scan(old(Snapshot()), old(flags[..]), 0) && nowords == |nodes|
    {
      hide RuleAt, Apply;
      var curr := 0;
      while curr < |nodes|
        invariant nowords == |nodes| && flags[..] == old(flags[..])
        invariant Scan(Snapshot(), flags[..], curr) == Scan(old(Snapshot()), old(flags[..]), 0)
        decreases |nodes| - curr
      {
        ghost var l, r := Snapshot(), RuleAt(Snapshot(), flags[..], curr);
        if r.Fuse? {
          AppliedShorter(l, curr, r);
        }
        var advance := RewriteAt(flags, curr);
        if advance {
          curr := curr + 1;
        }
      }
    }

    method ClearAll()
      requires WellLinked(Snapshot())
      modifies `nodes
      ensures Snapshot() == ClearFrom(old(Snapshot()), 0)
    {
      hide Seek, WellLinked;
      var curr := 0;
      while curr < |nodes|
        invariant WellLinked(Snapshot())
        invariant ClearFrom(Snapshot(), curr) == ClearFrom(old(Snapshot()), 0)
        decreases |nodes| - curr
      {
        if nodes[curr].inst.SVarAt? {
          ClearLinked(Snapshot(), curr);
          MaybeOptimizeVarsAt(curr);
        }
        curr := curr + 1;
      }
    }

    /** OptimizeIntermediate: one pass, which reports how many instructions it removed. */
    method OptimizeIntermediate() returns (removed: nat)
      requires WellLinked(Snapshot()) && nowords == |nodes|
      modifies this
      ensures Snapshot() == Pass(old(Snapshot())) && nowords == |nodes|
      ensures removed == |old(nodes)| - |nodes|
      ensures WellLinked(Snapshot())
    {
      hide Scan, WellLinked, Marks, Renumber;
      var before := nowords;
      ghost var l := Snapshot();
      RenumberChain();
      RenumberFields(l);
      RenumberLinked(l);
      var flags := MarkReferences();
      MarksFlag(l);
      RewriteAll(flags);
      ScanLinked(Renumber(l), Marks(Renumber(l)), 0);
      ghost var r := Snapshot();
      ClearAll();
      ClearFromLinked(r, 0);
      removed := before - nowords;
    }

    /** The passes the compiler makes: while the last one removed something, and five at most. */
    method OptimizeAll()
      requires WellLinked(Snapshot()) && nowords == |nodes|
      modifies this
      ensures Snapshot() == Passes(old(Snapshot()), 5) && nowords == |nodes|
      ensures WellLinked(Snapshot())
    {
      hide Pass, WellLinked;
      var left := 5;
      var more := true;
      while more
        invariant 0 <= left <= 5 && WellLinked(Snapshot()) && nowords == |nodes| && (more ==> left > 0)
        invariant (if more then Passes(Snapshot(), left) else Snapshot()) == Passes(old(Snapshot()), 5)
        decreases if more then left + 1 else 0
      {
        var removed := OptimizeIntermediate();
        left := left - 1;
        more := removed > 0 && left > 0;
      }
    }

    /** fix_addresses: number the chain again and let every jump name the number it leads to. */
    method FixAddresses()
      requires WellLinked(Snapshot())
      modifies `nodes
      ensures |nodes| == |old(nodes)| && addrs == old(addrs)
      ensures forall j :: 0 <= j < |nodes| ==> nodes[j].inst == Flat(old(Snapshot()))[j]
    {
      hide Target, Find;
      ghost var l := Snapshot();
      RenumberChain();
      var i := 0;
      while i < |nodes|
        invariant i <= |nodes| == |l.nodes| && addrs == l.addrs
        invariant forall j :: 0 <= j < |nodes| ==> nodes[j].id == l.nodes[j].id && nodes[j].no == j
        invariant forall j :: 0 <= j < i ==> nodes[j].inst == Fixed(l, l.nodes[j].inst)
        invariant forall j :: i <= j < |nodes| ==> nodes[j].inst == l.nodes[j].inst
      {
        var inst := nodes[i].inst;
        if HasTarget(inst) {
          var at := Entry(inst.target, l);
          nodes := nodes[i := nodes[i].(inst := SetTarget(inst, nodes[at].no + addrs[inst.target].off))];
        }
        i := i + 1;
      }
    }

    /** The node that an entry of the address table points at. */
    method Entry(k: nat, ghost l: Listing) returns (at: nat)
      requires Reaches(l, k) && addrs == l.addrs && |nodes| == |l.nodes|
      requires forall j :: 0 <= j < |nodes| ==> nodes[j].id == l.nodes[j].id
      ensures at < |nodes| && at + addrs[k].off == Target(l, k)
    {
      at := 0;
      while nodes[at].id != addrs[k].node
        invariant at < |nodes| && forall j :: 0 <= j < at ==> nodes[j].id != addrs[k].node
        decreases |nodes| - at
      {
        assert l.nodes[at].id == nodes[at].id;
        at := at + 1;
      }
      assert l.nodes[at].id == nodes[at].id;
    }

    /** copy_program. */
    method CopyProgram() returns (code: Code)
      ensures |code| == |nodes| && forall j :: 0 <= j < |code| ==> code[j] == nodes[j].inst
    {
      code := [];
      var i := 0;
      while i < |nodes|
        invariant i <= |nodes| && |code| == i
        invariant forall j :: 0 <= j < i ==> code[j] == nodes[j].inst
      {
        code := code + [nodes[i].inst];
        i := i + 1;
      }
    }
  }

  // ----- what the methods need to know between their steps -----

  lemma RenumberLinked(l: Listing)
    requires WellLinked(l)
    ensures WellLinked(Renumber(l))
  {
    hide Target, Find, Reaches;
    forall j | 0 <= j < |l.nodes| && HasTarget(l.nodes[j].inst) ensures Reaches(Renumber(l), l.nodes[j].inst.target) {
      RenumberSame(l, l.nodes[j].inst.target);
    }
  }

  lemma {:induction false} ScanLinked(l: Listing, flags: seq<bool>, cur: nat)
    requires WellLinked(l) && Flagged(l, flags, cur)
    ensures WellLinked(Scan(l, flags, cur))
    decreases |l.nodes| - cur
  {
    hide WellLinked, Flagged, RuleAt, Apply;
    if cur < |l.nodes| {
      if RuleAt(l, flags, cur).Keep? {
        FlaggedOn(l, flags, cur);
        ScanLinked(l, flags, cur + 1);
      } else {
        AppliedShorter(l, cur, RuleAt(l, flags, cur));
        AppliedFlagged(l, flags, cur);
        RuleAtLinked(l, flags, cur);
        ScanLinked(Apply(l, cur, RuleAt(l, flags, cur)), flags, cur);
      }
    }
  }

  lemma ClearLinked(l: Listing, f: nat)
    requires WellLinked(l) && f < |l.nodes|
    ensures WellLinked(MaybeClear(l, f))
  {
    hide Target, Find, Reaches, Seek;
    var l' := MaybeClear(l, f);
    forall j | 0 <= j < |l'.nodes| && HasTarget(l'.nodes[j].inst) ensures Reaches(l', l'.nodes[j].inst.target) {
      Repainted(l, l'.nodes, l'.nodes[j].inst.target);
    }
  }

  lemma {:induction false} ClearFromLinked(l: Listing, f: nat)
    requires WellLinked(l)
    ensures WellLinked(ClearFrom(l, f))
    decreases |l.nodes| - f
  {
    hide WellLinked, MaybeClear;
    if f < |l.nodes| {
      ClearLinked(l, f);
      ClearFromLinked(MaybeClear(l, f), f + 1);
    }
  }
}
