/** The peephole rules, and why each of them is sound: on a suitable run the new block does to the
stack and the scope what the old one did. */
module Rules {
  import opened Machine
  import opened Blocks
  import opened Replacement

  datatype Rule = Keep | Fuse(w: nat, block: Code)

  predicate Folds(op: MathOp, n: int) {
    (op == Div || op == Mod) ==> n != 0
  }

  /** What the optimizer makes of the instructions at its cursor, when the next free of them are
      not the target of any jump. */
  function Pick(a: Code, free: nat): (r: Rule)
    requires 0 < |a| && free < |a|
    ensures r.Fuse? ==> 1 < r.w <= free + 1 && 0 < |r.block| < r.w
  {
    match a[0]
    case PushSVar(k) =>
      if free >= 1 && a[1] == Primitive(Fetch) then Fuse(2, [SVarAt(k)])
      else if free >= 1 && a[1] == Primitive(Store) then Fuse(2, [SVarBang(k)])
      else Keep
    case PushStr(s) =>
      if s == "" && free >= 3 && a[1] == Primitive(Strcmp) && a[2] == PushInt(0) && a[3] == Primitive(Equal)
      then Fuse(4, [Primitive(Not)])
      else Keep
    case PushInt(n) =>
      if free >= 2 && a[1].PushInt? && a[2].Primitive? && a[2].p.Math? then
        if Folds(a[2].p.op, a[1].n) then Fuse(3, [PushInt(Arith(a[2].p.op, n, a[1].n))]) else Keep
      else if n == 0 && free >= 1 && a[1] == Primitive(Equal) then Fuse(2, [Primitive(Not)])
      else if n == 1 && free >= 1 && a[1] == Primitive(Math(Add)) then Fuse(2, [Primitive(Incr)])
      else if n == 1 && free >= 1 && a[1] == Primitive(Math(Sub)) then Fuse(2, [Primitive(Decr)])
      else Keep
    case Primitive(p) =>
      if p == Rot && free >= 2 && a[1] == Primitive(Rot) && a[2] == Primitive(Swap)
      then Fuse(3, [Primitive(Swap), Primitive(Rot)])
      else if p == Not && free >= 2 && a[1] == Primitive(Not) && a[2].If? then Fuse(3, [a[2]])
      else Keep
    case _ => Keep
  }

  /** Every place where a rule of the optimizer begins is taken, when enough of what follows is free. */
  lemma {:induction false} PickTakes(a: Code, free: nat, k: nat, t: nat)
    requires 0 < |a| && free < |a|
    ensures free >= 1 && [PushSVar(k), Primitive(Fetch)] <= a ==> Pick(a, free) == Fuse(2, [SVarAt(k)])
    ensures free >= 1 && [PushSVar(k), Primitive(Store)] <= a ==> Pick(a, free) == Fuse(2, [SVarBang(k)])
    ensures free >= 3 && [PushStr(""), Primitive(Strcmp), PushInt(0), Primitive(Equal)] <= a ==>
              Pick(a, free) == Fuse(4, [Primitive(Not)])
    ensures free >= 1 && [PushInt(0), Primitive(Equal)] <= a ==> Pick(a, free) == Fuse(2, [Primitive(Not)])
    ensures free >= 1 && [PushInt(1), Primitive(Math(Add))] <= a ==> Pick(a, free) == Fuse(2, [Primitive(Incr)])
    ensures free >= 1 && [PushInt(1), Primitive(Math(Sub))] <= a ==> Pick(a, free) == Fuse(2, [Primitive(Decr)])
    ensures free >= 2 && [Primitive(Rot), Primitive(Rot), Primitive(Swap)] <= a ==>
              Pick(a, free) == Fuse(3, [Primitive(Swap), Primitive(Rot)])
    ensures free >= 2 && [Primitive(Not), Primitive(Not), If(t)] <= a ==> Pick(a, free) == Fuse(3, [If(t)])
  {
    hide Arith;
  }

  lemma Run1(i: Inst, arg: seq<Value>, scope: Scope, floor: nat)
    requires Local(i)
    ensures Straight([i])
    ensures RunBlock([i], arg, scope, floor) == ExecLocal(i, arg, scope, floor)
  {}

  lemma Run2(i: Inst, rest: Code, arg: seq<Value>, scope: Scope, floor: nat)
    requires Local(i) && !i.If? && Straight(rest)
    ensures Straight([i] + rest)
    ensures
      var e := ExecLocal(i, arg, scope, floor);
      RunBlock([i] + rest, arg, scope, floor) ==
      if e.Fail? then e else RunBlock(rest, e.arg, e.scope, floor)
  {
    hide ExecLocal;
    assert ([i] + rest)[1..] == rest;
  }

  /** The old block and the new one agree wherever the old one runs well. */
  ghost predicate Agree(a: Code, b: Code, arg: seq<Value>, scope: Scope, floor: nat)
    requires Straight(a) && Straight(b)
  {
    floor <= |arg| && RunBlock(a, arg, scope, floor).Ok? ==>
      RunBlock(b, arg, scope, floor) == RunBlock(a, arg, scope, floor)
  }

  lemma PairRun(i: Inst, j: Inst, arg: seq<Value>, scope: Scope, floor: nat)
    requires Local(i) && Local(j) && !i.If?
    ensures Straight([i, j])
    ensures
      var e := ExecLocal(i, arg, scope, floor);
      RunBlock([i, j], arg, scope, floor) ==
      if e.Fail? then e else ExecLocal(j, e.arg, e.scope, floor)
  {
    hide ExecLocal;
    assert [i, j] == [i] + [j];
    var e := ExecLocal(i, arg, scope, floor);
    Run2(i, [j], arg, scope, floor);
    if e.Ok? {
      Run1(j, e.arg, e.scope, floor);
    }
  }

  // ----- each rule -----

  /** svar @ becomes svar@. */
  lemma FetchRule(k: nat, arg: seq<Value>, scope: Scope, floor: nat)
    ensures Straight([PushSVar(k), Primitive(Fetch)]) && Straight([SVarAt(k)])
    ensures Agree([PushSVar(k), Primitive(Fetch)], [SVarAt(k)], arg, scope, floor)
  {
    hide RunBlock;
    PairRun(PushSVar(k), Primitive(Fetch), arg, scope, floor);
    Run1(SVarAt(k), arg, scope, floor);
    assert (arg + [SVar(k)])[..|arg|] == arg;
  }

  /** svar ! becomes svar!. */
  lemma StoreRule(k: nat, arg: seq<Value>, scope: Scope, floor: nat)
    ensures Straight([PushSVar(k), Primitive(Store)]) && Straight([SVarBang(k)])
    ensures Agree([PushSVar(k), Primitive(Store)], [SVarBang(k)], arg, scope, floor)
  {
    hide RunBlock;
    PairRun(PushSVar(k), Primitive(Store), arg, scope, floor);
    Run1(SVarBang(k), arg, scope, floor);
    if |arg| > 0 {
      assert (arg + [SVar(k)])[..|arg| - 1] == arg[..|arg| - 1];
    }
  }

  /** 0 = becomes not. */
  lemma EqualRule(arg: seq<Value>, scope: Scope, floor: nat)
    ensures Straight([PushInt(0), Primitive(Equal)]) && Straight([Primitive(Not)])
    ensures Agree([PushInt(0), Primitive(Equal)], [Primitive(Not)], arg, scope, floor)
  {
    hide RunBlock, StrOrder, Arith, Wrap;
    PairRun(PushInt(0), Primitive(Equal), arg, scope, floor);
    Run1(Primitive(Not), arg, scope, floor);
    if |arg| > 0 {
      assert (arg + [Int(0)])[..|arg| - 1] == arg[..|arg| - 1];
    }
  }

  /** 1 + becomes ++ and 1 - becomes --. */
  lemma OneRule(p: Prim, q: Prim, arg: seq<Value>, scope: Scope, floor: nat)
    requires (p == Math(Add) && q == Incr) || (p == Math(Sub) && q == Decr)
    ensures Straight([PushInt(1), Primitive(p)]) && Straight([Primitive(q)])
    ensures Agree([PushInt(1), Primitive(p)], [Primitive(q)], arg, scope, floor)
  {
    hide Wrap, RunBlock, StrOrder;
    PairRun(PushInt(1), Primitive(p), arg, scope, floor);
    Run1(Primitive(q), arg, scope, floor);
    if |arg| > 0 {
      assert (arg + [Int(1)])[..|arg| - 1] == arg[..|arg| - 1];
    }
  }

  lemma TripleRun(i: Inst, j: Inst, l: Inst, arg: seq<Value>, scope: Scope, floor: nat)
    requires Local(i) && Local(j) && Local(l) && !i.If? && !j.If?
    ensures Straight([j, l]) && Straight([i, j, l])
    ensures
      var e := ExecLocal(i, arg, scope, floor);
      RunBlock([i, j, l], arg, scope, floor) ==
      if e.Fail? then e else RunBlock([j, l], e.arg, e.scope, floor)
  {
    hide ExecLocal;
    assert [i, j, l] == [i] + [j, l];
    Run2(i, [j, l], arg, scope, floor);
  }

  /** Constants are folded as the interpreter would compute them. */
  lemma FoldRule(m: int, n: int, op: MathOp, arg: seq<Value>, scope: Scope, floor: nat)
    requires Folds(op, n)
    ensures
      var a, b := [PushInt(m), PushInt(n), Primitive(Math(op))], [PushInt(Arith(op, m, n))];
      Straight(a) && Straight(b) && Agree(a, b, arg, scope, floor)
  {
    hide Arith, RunBlock, StrOrder, Wrap;
    TripleRun(PushInt(m), PushInt(n), Primitive(Math(op)), arg, scope, floor);
    var arg' := arg + [Int(m)];
    PairRun(PushInt(n), Primitive(Math(op)), arg', scope, floor);
    Run1(PushInt(Arith(op, m, n)), arg, scope, floor);
    assert (arg' + [Int(n)])[..|arg|] == arg;
  }

  lemma {:induction false} OrderZero(s: string, t: string)
    ensures StrOrder(s, t) == 0 <==> s == t
    decreases |s|
  {
    if s != [] && t != [] && s[0] == t[0] {
      OrderZero(s[1..], t[1..]);
      assert s == [s[0]] + s[1..] && t == [t[0]] + t[1..];
    }
  }

  lemma StrcmpRuns(arg: seq<Value>, scope: Scope, floor: nat)
    ensures Straight([Primitive(Strcmp), PushInt(0), Primitive(Equal)])
    ensures
      var r := RunBlock([Primitive(Strcmp), PushInt(0), Primitive(Equal)], arg, scope, floor);
      r.Ok? ==>
        && |arg| >= 2 && |arg| - floor >= 2 && Top(arg).Str? && Below(arg, 1).Str?
        && r == Ok(Drop(arg, 2) + [Truth(Below(arg, 1).s == Top(arg).s)], scope, false)
  {
    hide RunBlock, Arith, Wrap;
    TripleRun(Primitive(Strcmp), PushInt(0), Primitive(Equal), arg, scope, floor);
    var e := ExecLocal(Primitive(Strcmp), arg, scope, floor);
    if e.Ok? {
      OrderZero(Below(arg, 1).s, Top(arg).s);
      hide StrOrder;
      PairRun(PushInt(0), Primitive(Equal), e.arg, scope, floor);
      assert (e.arg + [Int(0)])[..|arg| - 2] == arg[..|arg| - 2];
    }
  }

  /** "" strcmp 0 = becomes not. */
  lemma StrcmpRule(arg: seq<Value>, scope: Scope, floor: nat)
    ensures
      var a, b := [PushStr(""), Primitive(Strcmp), PushInt(0), Primitive(Equal)], [Primitive(Not)];
      Straight(a) && Straight(b) && Agree(a, b, arg, scope, floor)
  {
    hide StrOrder, RunBlock, Arith, Wrap;
    var rest := [Primitive(Strcmp), PushInt(0), Primitive(Equal)];
    var arg' := arg + [Str("")];
    StrcmpRuns(arg', scope, floor);
    Run2(PushStr(""), rest, arg, scope, floor);
    assert [PushStr("")] + rest == [PushStr(""), Primitive(Strcmp), PushInt(0), Primitive(Equal)];
    Run1(Primitive(Not), arg, scope, floor);
    if |arg| > 0 {
      assert arg'[..|arg'| - 2] == arg[..|arg| - 1];
    }
  }

  lemma RotRuns(low: seq<Value>, x: Value, y: Value, z: Value, scope: Scope, floor: nat)
    requires floor <= |low|
    ensures ExecLocal(Primitive(Rot), low + [x, y, z], scope, floor) == Ok(low + [y, z, x], scope, false)
  {
    var arg := low + [x, y, z];
    assert Drop(arg, 3) == low;
  }

  lemma SwapRuns(low: seq<Value>, x: Value, y: Value, z: Value, scope: Scope, floor: nat)
    requires floor <= |low|
    ensures ExecLocal(Primitive(Swap), low + [x, y, z], scope, floor) == Ok(low + [x, z, y], scope, false)
  {
    var arg := low + [x, y, z];
    assert Drop(arg, 2) == low + [x];
  }

  lemma RotNeeds(arg: seq<Value>, scope: Scope, floor: nat)
    requires ExecLocal(Primitive(Rot), arg, scope, floor).Ok?
    ensures |arg| >= 3 && |arg| - floor >= 3
  {}

  /** rot rot swap becomes swap rot. */
  lemma RotRule(arg: seq<Value>, scope: Scope, floor: nat)
    ensures
      var a, b := [Primitive(Rot), Primitive(Rot), Primitive(Swap)], [Primitive(Swap), Primitive(Rot)];
      Straight(a) && Straight(b) && Agree(a, b, arg, scope, floor)
  {
    hide ExecLocal, RunBlock;
    TripleRun(Primitive(Rot), Primitive(Rot), Primitive(Swap), arg, scope, floor);
    PairRun(Primitive(Swap), Primitive(Rot), arg, scope, floor);
    if ExecLocal(Primitive(Rot), arg, scope, floor).Ok? {
      RotNeeds(arg, scope, floor);
      var n := |arg|;
      var x, y, z := arg[n - 3], arg[n - 2], arg[n - 1];
      var low := arg[..n - 3];
      assert arg == low + [x, y, z];
      RotRuns(low, x, y, z, scope, floor);
      PairRun(Primitive(Rot), Primitive(Swap), low + [y, z, x], scope, floor);
      RotRuns(low, y, z, x, scope, floor);
      SwapRuns(low, z, x, y, scope, floor);
      SwapRuns(low, x, y, z, scope, floor);
      RotRuns(low, x, z, y, scope, floor);
    }
  }

  /** not not if becomes if. */
  lemma NotRule(t: nat, arg: seq<Value>, scope: Scope, floor: nat)
    ensures
      var a, b := [Primitive(Not), Primitive(Not), If(t)], [If(t)];
      Straight(a) && Straight(b) && Agree(a, b, arg, scope, floor)
  {
    hide RunBlock, StrOrder, Arith, Wrap;
    TripleRun(Primitive(Not), Primitive(Not), If(t), arg, scope, floor);
    Run1(If(t), arg, scope, floor);
    var n := |arg|;
    if n >= 1 && n - floor >= 1 {
      var low := arg[..n - 1];
      var e := ExecLocal(Primitive(Not), arg, scope, floor);
      assert e.arg == low + [Truth(IsFalse(arg[n - 1]))];
      PairRun(Primitive(Not), If(t), e.arg, scope, floor);
      var e2 := ExecLocal(Primitive(Not), e.arg, scope, floor);
      assert e2.arg == low + [Truth(!IsFalse(arg[n - 1]))];
      assert ExecLocal(If(t), e2.arg, scope, floor) == ExecLocal(If(t), arg, scope, floor);
    }
  }

  lemma SameFromAgree(a: Code, b: Code)
    requires Straight(a) && Straight(b)
    requires forall i :: 0 <= i < |a| ==> Rewritten(a[i])
    requires a[|a| - 1].If? <==> b[|b| - 1].If?
    requires a[|a| - 1].If? ==> a[|a| - 1] == b[|b| - 1]
    requires forall arg, scope, floor :: Agree(a, b, arg, scope, floor)
    ensures SameEffect(a, b)
  {
    hide RunBlock;
    forall arg, scope, floor: nat | floor <= |arg| && RunBlock(a, arg, scope, floor).Ok?
      ensures RunBlock(b, arg, scope, floor) == RunBlock(a, arg, scope, floor)
    {
      assert Agree(a, b, arg, scope, floor);
    }
  }

  lemma PickSVar(k: nat)
    ensures SameEffect([PushSVar(k), Primitive(Fetch)], [SVarAt(k)])
    ensures SameEffect([PushSVar(k), Primitive(Store)], [SVarBang(k)])
  {
    hide SameEffect, Agree, Straight;
    FetchRule(k, [], [], 0);
    StoreRule(k, [], [], 0);
    forall arg, scope, floor ensures Agree([PushSVar(k), Primitive(Fetch)], [SVarAt(k)], arg, scope, floor) {
      FetchRule(k, arg, scope, floor);
    }
    forall arg, scope, floor ensures Agree([PushSVar(k), Primitive(Store)], [SVarBang(k)], arg, scope, floor) {
      StoreRule(k, arg, scope, floor);
    }
    SameFromAgree([PushSVar(k), Primitive(Fetch)], [SVarAt(k)]);
    SameFromAgree([PushSVar(k), Primitive(Store)], [SVarBang(k)]);
  }

  lemma PickEqual()
    ensures SameEffect([PushInt(0), Primitive(Equal)], [Primitive(Not)])
  {
    hide SameEffect, Agree, Straight;
    var a, b := [PushInt(0), Primitive(Equal)], [Primitive(Not)];
    EqualRule([], [], 0);
    forall arg, scope, floor ensures Agree(a, b, arg, scope, floor) {
      EqualRule(arg, scope, floor);
    }
    SameFromAgree(a, b);
  }

  lemma PickOne(p: Prim, q: Prim)
    requires (p == Math(Add) && q == Incr) || (p == Math(Sub) && q == Decr)
    ensures SameEffect([PushInt(1), Primitive(p)], [Primitive(q)])
  {
    hide SameEffect, Agree, Straight;
    var a, b := [PushInt(1), Primitive(p)], [Primitive(q)];
    OneRule(p, q, [], [], 0);
    forall arg, scope, floor ensures Agree(a, b, arg, scope, floor) {
      OneRule(p, q, arg, scope, floor);
    }
    SameFromAgree(a, b);
  }

  lemma PickFold(m: int, n: int, op: MathOp)
    requires Folds(op, n)
    ensures SameEffect([PushInt(m), PushInt(n), Primitive(Math(op))], [PushInt(Arith(op, m, n))])
  {
    hide SameEffect, Agree, Straight, Arith;
    var a, b := [PushInt(m), PushInt(n), Primitive(Math(op))], [PushInt(Arith(op, m, n))];
    FoldRule(m, n, op, [], [], 0);
    forall arg, scope, floor ensures Agree(a, b, arg, scope, floor) {
      FoldRule(m, n, op, arg, scope, floor);
    }
    SameFromAgree(a, b);
  }

  lemma PickStrcmp()
    ensures SameEffect([PushStr(""), Primitive(Strcmp), PushInt(0), Primitive(Equal)], [Primitive(Not)])
  {
    hide SameEffect, Agree, Straight;
    var a, b := [PushStr(""), Primitive(Strcmp), PushInt(0), Primitive(Equal)], [Primitive(Not)];
    StrcmpRule([], [], 0);
    forall arg, scope, floor ensures Agree(a, b, arg, scope, floor) {
      StrcmpRule(arg, scope, floor);
    }
    SameFromAgree(a, b);
  }

  lemma PickStack(t: nat)
    ensures SameEffect([Primitive(Rot), Primitive(Rot), Primitive(Swap)], [Primitive(Swap), Primitive(Rot)])
    ensures SameEffect([Primitive(Not), Primitive(Not), If(t)], [If(t)])
  {
    hide SameEffect, Agree, Straight;
    var a, b := [Primitive(Rot), Primitive(Rot), Primitive(Swap)], [Primitive(Swap), Primitive(Rot)];
    var c, d := [Primitive(Not), Primitive(Not), If(t)], [If(t)];
    RotRule([], [], 0);
    NotRule(t, [], [], 0);
    forall arg, scope, floor ensures Agree(a, b, arg, scope, floor) && Agree(c, d, arg, scope, floor) {
      RotRule(arg, scope, floor);
      NotRule(t, arg, scope, floor);
    }
    SameFromAgree(a, b);
    SameFromAgree(c, d);
  }

  /** Every rule replaces a block by a shorter one with the same effect. */
  lemma PickSound(a: Code, free: nat)
    requires 0 < |a| && free < |a| && Pick(a, free).Fuse?
    ensures
      var r := Pick(a, free);
      SameEffect(a[..r.w], r.block)
  {
    hide SameEffect, Arith;
    var r := Pick(a, free);
    match a[0] {
      case PushSVar(k) =>
        PickSVar(k);
        assert a[..2] == [a[0], a[1]];
      case PushStr(s) =>
        PickStrcmp();
        assert a[..4] == [a[0], a[1], a[2], a[3]];
      case PushInt(n) =>
        if r.w == 3 {
          PickFold(n, a[1].n, a[2].p.op);
          assert a[..3] == [a[0], a[1], a[2]];
        } else {
          PickEqual();
          if n == 1 {
            PickOne(a[1].p, r.block[0].p);
          }
          assert a[..2] == [a[0], a[1]];
        }
      case Primitive(p) =>
        PickStack(if p == Not then a[2].target else 0);
        assert a[..3] == [a[0], a[1], a[2]];
    }
  }
}
