/** The path analysis that looks for fetches to clear, a whole optimizer pass, and all passes. */
module ClearPass {
  import opened Machine
  import opened Layout
  import opened Discipline
  import opened Blocks
  import opened FetchClear
  import opened Optimize

  /** The number of the instruction an address names. */
  function NumberAt(l: Listing, k: nat): nat {
    if Target(l, k) < |l.nodes| then l.nodes[Target(l, k)].no else 0
  }

  /** MaybeOptimizeVarsAt from node i on: whether the fetch numbered first of variable k is followed
      by a store on every path; far is the farthest number a jump has led to so far. */
  predicate Seek(l: Listing, first: nat, k: nat, i: nat, far: nat)
    decreases |l.nodes| - i
  {
    if i >= |l.nodes| then false
    else if l.nodes[i].inTry then false
    else match l.nodes[i].inst
      case Primitive(p) => p != Fetch && p != Store && Seek(l, first, k, i + 1, far)
      case SVarAt(j) => j != k && Seek(l, first, k, i + 1, far)
      case SVarAtClear(j) => j != k && Seek(l, first, k, i + 1, far)
      case SVarBang(j) => if j == k then l.nodes[i].no > far else Seek(l, first, k, i + 1, far)
      case If(t) => SeekJump(l, first, k, i, far, t)
      case Try(t) => SeekJump(l, first, k, i, far, t)
      case Jmp(t) => SeekJump(l, first, k, i, far, t)
      case Function(_, _) => false
      case _ => Seek(l, first, k, i + 1, far)
  }

  predicate SeekJump(l: Listing, first: nat, k: nat, i: nat, far: nat, t: nat)
    requires i < |l.nodes|
    decreases |l.nodes| - i, 0
  {
    var n := NumberAt(l, t);
    n > first && Seek(l, first, k, i + 1, if n > far then n else far)
  }

  function MaybeClear(l: Listing, f: nat): (r: Listing)
    requires f < |l.nodes|
    ensures |r.nodes| == |l.nodes|
  {
    var n := l.nodes[f];
    if n.inst.SVarAt? && !n.inTry && Seek(l, n.no, n.inst.k, f + 1, 0) then SetInst(l, f, SVarAtClear(n.inst.k)) else l
  }

  function ClearFrom(l: Listing, f: nat): (r: Listing)
    ensures |r.nodes| == |l.nodes|
    decreases |l.nodes| - f
  {
    if f >= |l.nodes| then l else ClearFrom(MaybeClear(l, f), f + 1)
  }

  /** One call of OptimizeIntermediate. */
  function Pass(l: Listing): (r: Listing)
    ensures |r.nodes| <= |l.nodes|
  {
    ClearFrom(Rewrite(l), 0)
  }

  /** When a pass removes nothing, no rule applied anywhere. */
  lemma PassDone(l: Listing)
    requires |Pass(l).nodes| == |l.nodes|
    ensures
      var r := Renumber(l);
      Pass(l) == ClearFrom(r, 0) && forall j :: 0 <= j < |r.nodes| ==> RuleAt(r, Marks(r), j).Keep?
  {
    hide Scan, ClearFrom, RuleAt;
    NothingLeft(Renumber(l), Marks(Renumber(l)), 0);
  }

  /** Passes are repeated while they remove something, n times at most. */
  function Passes(l: Listing, n: nat): Listing
    decreases n
  {
    if n == 0 then l
    else if |Pass(l).nodes| < |l.nodes| then Passes(Pass(l), n - 1) else Pass(l)
  }

  // ----- what the analysis finds -----

  ghost predicate QuietFrom(l: Listing, first: nat, k: nat, i: nat, g: nat) {
    && i <= g < |l.nodes| && l.nodes[g].inst == SVarBang(k)
    && (forall j :: i <= j <= g ==> !l.nodes[j].inTry)
    && (forall j :: i <= j < g ==> Quiet(l.nodes[j].inst, k))
    && (forall j :: i <= j < g && (l.nodes[j].inst.If? || l.nodes[j].inst.Jmp? || l.nodes[j].inst.Try?) ==>
          first < NumberAt(l, l.nodes[j].inst.target) < l.nodes[g].no)
  }

  /** A successful search ends at the first store, with quiet code up to it. */
  lemma {:induction false} SeekFinds(l: Listing, first: nat, k: nat, i: nat, far: nat) returns (g: nat)
    requires Seek(l, first, k, i, far)
    ensures QuietFrom(l, first, k, i, g) && far < l.nodes[g].no
    decreases |l.nodes| - i
  {
    hide NumberAt;
    var x := l.nodes[i].inst;
    if x == SVarBang(k) {
      g := i;
    } else {
      var n := if x.If? || x.Jmp? || x.Try? then NumberAt(l, x.target) else 0;
      g := SeekFinds(l, first, k, i + 1, if n > far then n else far);
    }
  }

  lemma {:induction false} QuietSought(l: Listing, first: nat, k: nat, i: nat, far: nat, g: nat)
    requires QuietFrom(l, first, k, i, g) && far < l.nodes[g].no
    ensures Seek(l, first, k, i, far)
    decreases g - i
  {
    hide NumberAt;
    if i < g {
      var x := l.nodes[i].inst;
      assert Quiet(x, k);
      var n := if x.If? || x.Jmp? || x.Try? then NumberAt(l, x.target) else 0;
      QuietSought(l, first, k, i + 1, if n > far then n else far, g);
    }
  }

  /** The search succeeds exactly when there is a store with such code up to it, beyond every jump seen. */
  lemma SeekIff(l: Listing, first: nat, k: nat, i: nat, far: nat)
    ensures Seek(l, first, k, i, far) <==>
            exists g: nat :: QuietFrom(l, first, k, i, g) && far < l.nodes[g].no
  {
    hide Seek, Quiet, NumberAt;
    if Seek(l, first, k, i, far) {
      var g := SeekFinds(l, first, k, i, far);
    }
    forall g: nat | QuietFrom(l, first, k, i, g) && far < l.nodes[g].no ensures Seek(l, first, k, i, far) {
      QuietSought(l, first, k, i, far, g);
    }
  }

  /** The fetch of variable k at f is not in a TRY, and is followed by such code and a store. */
  ghost predicate Clearable(l: Listing, f: nat)
    requires f < |l.nodes|
  {
    var n := l.nodes[f];
    && n.inst.SVarAt? && !n.inTry
    && exists g: nat :: QuietFrom(l, n.no, n.inst.k, f + 1, g) && 0 < l.nodes[g].no
  }

  lemma MaybeClearIs(l: Listing, f: nat)
    requires f < |l.nodes|
    ensures MaybeClear(l, f) == if Clearable(l, f) then SetInst(l, f, SVarAtClear(l.nodes[f].inst.k)) else l
  {
    hide Seek, QuietFrom;
    if l.nodes[f].inst.SVarAt? {
      SeekIff(l, l.nodes[f].no, l.nodes[f].inst.k, f + 1, 0);
    }
  }

  lemma {:induction false} SeekSame(l: Listing, p: nat, first: nat, k: nat, i: nat, far: nat)
    requires p < |l.nodes| && l.nodes[p].inst.SVarAt?
    ensures Seek(SetInst(l, p, SVarAtClear(l.nodes[p].inst.k)), first, k, i, far) == Seek(l, first, k, i, far)
    decreases |l.nodes| - i
  {
    var l' := SetInst(l, p, SVarAtClear(l.nodes[p].inst.k));
    if i < |l.nodes| {
      var x := l.nodes[i].inst;
      if x.If? || x.Jmp? || x.Try? {
        NumberSame(l, p, x.target);
        hide NumberAt;
        var n := NumberAt(l, x.target);
        SeekSame(l, p, first, k, i + 1, if n > far then n else far);
      } else {
        SeekSame(l, p, first, k, i + 1, far);
      }
    }
  }

  lemma NumberSame(l: Listing, p: nat, t: nat)
    requires p < |l.nodes| && l.nodes[p].inst.SVarAt?
    ensures NumberAt(SetInst(l, p, SVarAtClear(l.nodes[p].inst.k)), t) == NumberAt(l, t)
  {
    FindSame(l.nodes, p, SVarAtClear(l.nodes[p].inst.k), if t < |l.addrs| then l.addrs[t].node else 0);
  }

  lemma {:induction false} FindSame(nodes: seq<Node>, p: nat, i: Inst, id: nat)
    requires p < |nodes|
    ensures Find(nodes[p := nodes[p].(inst := i)], id) == Find(nodes, id)
    decreases |nodes|
  {
    var nodes' := nodes[p := nodes[p].(inst := i)];
    if p > 0 {
      assert nodes'[1..] == nodes[1..][p - 1 := nodes[1..][p - 1].(inst := i)];
      FindSame(nodes[1..], p - 1, i, id);
    } else {
      assert nodes'[1..] == nodes[1..];
    }
  }

  lemma ClearableSame(l: Listing, p: nat, j: nat)
    requires p < j < |l.nodes| && l.nodes[p].inst.SVarAt?
    ensures Clearable(SetInst(l, p, SVarAtClear(l.nodes[p].inst.k)), j) <==> Clearable(l, j)
  {
    hide Seek, QuietFrom;
    var l' := SetInst(l, p, SVarAtClear(l.nodes[p].inst.k));
    var n := l.nodes[j];
    if n.inst.SVarAt? {
      SeekSame(l, p, n.no, n.inst.k, j + 1, 0);
      SeekIff(l, n.no, n.inst.k, j + 1, 0);
      SeekIff(l', n.no, n.inst.k, j + 1, 0);
    }
  }

  /** A pass clears exactly the fetches that can be cleared in the list it was given, and changes nothing
      else. */
  lemma {:induction false} ClearsExactly(l: Listing, f: nat)
    ensures ClearFrom(l, f).addrs == l.addrs
    ensures forall j :: 0 <= j < |l.nodes| ==>
      ClearFrom(l, f).nodes[j] ==
      if j >= f && Clearable(l, j) then l.nodes[j].(inst := SVarAtClear(l.nodes[j].inst.k)) else l.nodes[j]
    decreases |l.nodes| - f
  {
    if f < |l.nodes| {
      MaybeClearIs(l, f);
      ClearsExactly(MaybeClear(l, f), f + 1);
      hide Clearable;
      if Clearable(l, f) {
        assert l.nodes[f].inst.SVarAt? by { ClearableFetch(l, f); }
        forall j | f < j < |l.nodes| ensures Clearable(MaybeClear(l, f), j) <==> Clearable(l, j) {
          ClearableSame(l, f, j);
        }
      }
    }
  }

  lemma ClearableFetch(l: Listing, f: nat)
    requires f < |l.nodes| && Clearable(l, f)
    ensures l.nodes[f].inst.SVarAt?
  {}

  /** In a list with increasing numbers that is a region of the flat code. */
  lemma SeekRegion(l: Listing, f: nat, g: nat, dep: seq<nat>)
    requires Fine(l, dep) && f < |l.nodes| && l.nodes[f].inst.SVarAt? && !l.nodes[f].inTry
    requires QuietFrom(l, l.nodes[f].no, l.nodes[f].inst.k, f + 1, g)
    ensures |dep| == |Flat(l)| && Region(Flat(l), dep, f, g, l.nodes[f].inst.k)
  {
    hide Target, Reaches, Distinct, TypedAt;
    var c, k := Flat(l), l.nodes[f].inst.k;
    forall j | 0 <= j < |c| ensures c[j] == Fixed(l, l.nodes[j].inst) {}
    forall i | f < i < g ensures Quiet(c[i], k) {
      assert Quiet(l.nodes[i].inst, k);
    }
    forall i | f < i < g && (c[i].If? || c[i].Jmp? || c[i].Try?) ensures f < c[i].target < g {
      assert c[i].target == Target(l, l.nodes[i].inst.target);
      assert Reaches(l, l.nodes[i].inst.target);
      TargetBound(l, l.nodes[i].inst.target);
    }
  }

  // ----- clearing is sound -----

  lemma SetFine(l: Listing, f: nat, k: nat, dep: seq<nat>)
    requires Fine(l, dep) && f < |l.nodes| && l.nodes[f].inst == SVarAt(k)
    ensures
      var l' := SetInst(l, f, SVarAtClear(k));
      Fine(l', dep) && Flat(l') == Flat(l)[f := SVarAtClear(k)]
  {
    hide Target, Reaches, Distinct, Typed, Find;
    var l' := SetInst(l, f, SVarAtClear(k));
    forall j | 0 <= j < |l.nodes| && HasTarget(l'.nodes[j].inst) ensures Reaches(l', l'.nodes[j].inst.target) {
      Repainted(l, l'.nodes, l'.nodes[j].inst.target);
    }
    forall j | 0 <= j < |l.nodes| ensures Flat(l')[j] == Flat(l)[f := SVarAtClear(k)][j] {
      if HasTarget(l'.nodes[j].inst) {
        Repainted(l, l'.nodes, l'.nodes[j].inst.target);
      }
    }
    Repainted(l, l'.nodes, 0);
    assert Flat(l') == Flat(l)[f := SVarAtClear(k)];
    assert Flat(l)[f] == SVarAt(k);
    SetTyped(Flat(l), dep, f, k);
  }

  lemma SetTyped(c: Code, dep: seq<nat>, f: nat, k: nat)
    requires Typed(c, dep) && f < |c| && c[f] == SVarAt(k)
    ensures Typed(c[f := SVarAtClear(k)], dep)
  {
    var c' := c[f := SVarAtClear(k)];
    forall i | 0 <= i < |c| ensures TypedAt(c', dep, i) {
      assert TypedAt(c, dep, i);
    }
  }

  lemma SetHeader(l: Listing, f: nat, i: Inst, id: nat, arg: seq<Value>)
    requires Header(l, id) && f < |l.nodes| && !l.nodes[f].inst.Function?
    ensures Header(SetInst(l, f, i), id) && StartAt(SetInst(l, f, i), id, arg) == StartAt(l, id, arg)
  {
    SameFind(l.nodes, SetInst(l, f, i).nodes, id);
  }

  lemma NoTrys(code: Code, dep: seq<nat>, at: nat)
    requires |dep| == |code| && at < |code| && dep[at] == 0
    ensures TrysOk(code, dep, [at], [])
  {
    var none: seq<TryRec> := [];
    assert [at][..0] == [] && none[..0] == none;
  }

  /** A program about to start satisfies the invariant of running programs. */
  lemma StartInv(code: Code, dep: seq<nat>, at: nat, arg: seq<Value>)
    requires Typed(code, dep) && at < |code| && code[at].Function?
    ensures Inv(code, dep, State(at, arg, [0], [], [], ""))
  {
    hide TrysOk;
    assert TypedAt(code, dep, at);
    NoTrys(code, dep, at);
    assert [0][1..] + [at] == [at];
  }

  lemma StartGood(l: Listing, id: nat, arg: seq<Value>, dep: seq<nat>)
    requires Typed(Flat(l), dep) && Header(l, id)
    ensures Good(Flat(l), dep, StartAt(l, id, arg))
  {
    hide Typed, TypedAt, Inv, Target, Find;
    StartInv(Flat(l), dep, Find(l.nodes, id), arg);
  }

  lemma ClearSound(l: Listing, f: nat, id: nat, arg: seq<Value>, dep: seq<nat>)
    requires Fine(l, dep) && Header(l, id) && f < |l.nodes|
    ensures
      var l' := MaybeClear(l, f);
      && Fine(l', dep) && Header(l', id)
      && Refines(Flat(l), StartAt(l, id, arg), Flat(l'), StartAt(l', id, arg))
  {
    hide Seek, Typed, Header, StartAt, Refines, Good, Noted, Increasing, WellLinked, Flat, SetInst, QuietFrom, Region;
    var n := l.nodes[f];
    RefinesSelf(Flat(l), StartAt(l, id, arg));
    if n.inst.SVarAt? && !n.inTry && Seek(l, n.no, n.inst.k, f + 1, 0) {
      var g := SeekFinds(l, n.no, n.inst.k, f + 1, 0);
      SeekRegion(l, f, g, dep);
      SetFine(l, f, n.inst.k, dep);
      SetHeader(l, f, SVarAtClear(n.inst.k), id, arg);
      StartGood(l, id, arg, dep);
      ClearRefines(Flat(l), dep, f, g, n.inst.k, StartAt(l, id, arg));
    }
  }

  lemma {:induction false} ClearFromSound(l: Listing, f: nat, id: nat, arg: seq<Value>, dep: seq<nat>)
    requires Fine(l, dep) && Header(l, id)
    ensures
      var l' := ClearFrom(l, f);
      && Fine(l', dep) && Header(l', id)
      && Refines(Flat(l), StartAt(l, id, arg), Flat(l'), StartAt(l', id, arg))
    decreases |l.nodes| - f
  {
    hide MaybeClear, Fine, Header, StartAt, Refines, Flat;
    if f >= |l.nodes| {
      RefinesSelf(Flat(l), StartAt(l, id, arg));
    } else {
      var l1 := MaybeClear(l, f);
      ClearSound(l, f, id, arg, dep);
      ClearFromSound(l1, f + 1, id, arg, dep);
      var l' := ClearFrom(l1, f + 1);
      RefinesTrans(Flat(l), StartAt(l, id, arg), Flat(l1), StartAt(l1, id, arg), Flat(l'), StartAt(l', id, arg));
    }
  }

  lemma FineParts(l: Listing, dep: seq<nat>)
    requires Fine(l, dep)
    ensures WellLinked(l) && Typed(Flat(l), dep) && Noted(l.nodes, dep)
  {}

  /** One pass: every rewrite and every cleared fetch. */
  lemma PassSound(l: Listing, id: nat, arg: seq<Value>, dep: seq<nat>) returns (dep': seq<nat>)
    requires WellLinked(l) && Typed(Flat(l), dep) && Noted(l.nodes, dep) && Header(l, id)
    ensures Fine(Pass(l), dep') && Header(Pass(l), id)
    ensures Refines(Flat(l), StartAt(l, id, arg), Flat(Pass(l)), StartAt(Pass(l), id, arg))
  {
    hide Rewrite, ClearFrom, Typed, Noted, WellLinked, Fine, Header, StartAt, Refines, Flat;
    var l1 := Rewrite(l);
    dep' := RewriteSound(l, id, arg, dep);
    ClearFromSound(l1, 0, id, arg, dep');
    RefinesTrans(Flat(l), StartAt(l, id, arg), Flat(l1), StartAt(l1, id, arg), Flat(Pass(l)), StartAt(Pass(l), id, arg));
  }

  /** Any number of passes. */
  lemma {:induction false} PassesSound(l: Listing, n: nat, id: nat, arg: seq<Value>, dep: seq<nat>)
      returns (dep': seq<nat>)
    requires WellLinked(l) && Typed(Flat(l), dep) && Noted(l.nodes, dep) && Header(l, id)
    ensures WellLinked(Passes(l, n)) && Typed(Flat(Passes(l, n)), dep') && Header(Passes(l, n), id)
    ensures Refines(Flat(l), StartAt(l, id, arg), Flat(Passes(l, n)), StartAt(Passes(l, n), id, arg))
    decreases n
  {
    hide Pass, Typed, Noted, WellLinked, Fine, Header, StartAt, Refines, Flat;
    if n == 0 {
      dep' := dep;
      RefinesSelf(Flat(l), StartAt(l, id, arg));
    } else {
      var l1 := Pass(l);
      dep' := PassSound(l, id, arg, dep);
      FineParts(l1, dep');
      if |l1.nodes| < |l.nodes| {
        dep' := PassesSound(l1, n - 1, id, arg, dep');
        var l' := Passes(l1, n - 1);
        RefinesTrans(Flat(l), StartAt(l, id, arg), Flat(l1), StartAt(l1, id, arg), Flat(l'), StartAt(l', id, arg));
      }
    }
  }
}
